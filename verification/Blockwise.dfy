/** Block-wise transfer (section 2 of RFC 7959): a sender that hands out slices of its payload and a
    receiver that puts them together, over a channel that loses, repeats and reorders. */
module Blockwise {
  import opened Wrappers

  /** A block on the wire; `more` says that it is not the last. */
  datatype Block = Block(offset: nat, bytes: seq<byte>, more: bool)

  /** The offset behind a block. */
  function End(b: Block): nat {
    b.offset + |b.bytes|
  }

  // ---------------------------------------------------------------------------
  // The buffer
  // ---------------------------------------------------------------------------

  /** The number of bytes that a sender announces for a block. */
  function DispatchSize(payloadSize: nat, offset: nat, requested: nat): nat
    requires offset < payloadSize
  {
    if payloadSize < requested then payloadSize else Min(requested, payloadSize - offset)
  }

  /** The slice of the payload that the block at an offset is meant to be. */
  function SliceOf(payload: seq<byte>, offset: nat, requested: nat): seq<byte>
    requires offset <= |payload|
  {
    payload[offset..Min(offset + requested, |payload|)]
  }

  function SentAt(payload: seq<byte>, offset: nat, size: nat): Option<Block> {
    if offset < |payload| then Some(Block(offset, SliceOf(payload, offset, size), offset + size < |payload|)) else None
  }

  /** The reply to a request for block number num. */
  function Sent(payload: seq<byte>, num: nat, size: nat): Option<Block> {
    SentAt(payload, num * size, size)
  }

  /** The announced size is that of the slice exactly when the block is the first or the payload
      is no shorter than a block. */
  lemma SizeIsRight(payload: seq<byte>, offset: nat, requested: nat)
    requires offset < |payload|
    ensures DispatchSize(|payload|, offset, requested) == |SliceOf(payload, offset, requested)|
      <==> offset == 0 || requested <= |payload|
  {
  }

  /** At offsets that are multiples of the block size it always is. */
  lemma AlignedIsRight(payload: seq<byte>, num: nat, requested: nat)
    requires num * requested < |payload|
    ensures DispatchSize(|payload|, num * requested, requested) == |SliceOf(payload, num * requested, requested)|
  {
    if num > 0 {
      Multiple(num, requested);
    }
    SizeIsRight(payload, num * requested, requested);
  }

  lemma {:induction false} Multiple(num: nat, size: nat)
    requires num > 0
    ensures size <= num * size
  {
    if num > 1 {
      Multiple(num - 1, size);
      assert num * size == (num - 1) * size + size;
    }
  }

  /** What a receiver that holds `received` and has room for max bytes makes of a block. */
  function Accepts(received: seq<byte>, max: nat, offset: nat, size: nat): bool {
    offset < max && size <= max - offset && offset <= |received|
  }

  function Handled(received: seq<byte>, max: nat, offset: nat, bytes: seq<byte>): seq<byte> {
    if Accepts(received, max, offset, |bytes|) && offset == |received| then received + bytes else received
  }

  const UINT32_RANGE := 0x1_0000_0000

  /** The test on a request for the block at `offset` when the sender's next offset is `next`: the
      difference is an unsigned one. */
  predicate AlreadyProvided(next: nat, offset: nat, size: nat) {
    (next - offset) % UINT32_RANGE > size
  }

  /** One transfer buffer, of a sender or of a receiver. */
  class Buffer {
    const max: nat
    const buffer: array<byte>
    var payloadSize: nat
    var nextBlockOffset: nat

    ghost predicate Valid()
      reads this
    {
      buffer.Length == max && nextBlockOffset <= max
    }

    ghost function Received(): seq<byte>
      reads this, buffer
      requires Valid()
    {
      buffer[..nextBlockOffset]
    }

    constructor (max: nat)
      ensures Valid() && this.max == max && fresh(buffer) && payloadSize == 0 && Received() == []
    {
      this.max := max;
      buffer := new byte[max](_ => 0);
      payloadSize := 0;
      nextBlockOffset := 0;
    }

    /** oc_blockwise_dispatch_block: the bytes handed out are buffer[offset..offset + size], which
        may reach behind the payload. */
    method Dispatch(offset: nat, requested: nat) returns (size: Option<nat>)
      modifies this`nextBlockOffset
      ensures if offset < payloadSize then
          size == Some(DispatchSize(payloadSize, offset, requested)) && nextBlockOffset == offset + size.value
        else
          size == None && nextBlockOffset == old(nextBlockOffset)
    {
      if offset < payloadSize {
        var n;
        if payloadSize < requested {
          n := payloadSize;
        } else {
          n := Min(requested, payloadSize - offset);
        }
        nextBlockOffset := offset + n;
        return Some(n);
      }
      return None;
    }

    /** The reply at an offset where the announced size is right. */
    method Reply(offset: nat, requested: nat) returns (block: Option<Block>)
      requires payloadSize <= buffer.Length
      requires offset < payloadSize ==>
        offset + DispatchSize(payloadSize, offset, requested) == Min(offset + requested, payloadSize)
      modifies this`nextBlockOffset
      ensures block == if AlreadyProvided(old(nextBlockOffset), offset, requested) then None
        else SentAt(buffer[..payloadSize], offset, requested)
      ensures nextBlockOffset == if block.None? then old(nextBlockOffset) else End(block.value)
    {
      hide DispatchSize;
      hide AlreadyProvided;
      if AlreadyProvided(nextBlockOffset, offset, requested) {
        return None;
      }
      var size := Dispatch(offset, requested);
      if size.None? {
        return None;
      }
      var bytes := ReadBlock(offset, size.value);
      return Some(Block(offset, bytes, nextBlockOffset < payloadSize));
    }

    /** A reply to a request for block number num, unless that has been provided before: the right
        slice, and `more` exactly when bytes are left. */
    method SendBlock(num: nat, requested: nat) returns (block: Option<Block>)
      requires buffer.Length == max && payloadSize <= max
      modifies this`nextBlockOffset
      ensures block == if AlreadyProvided(old(nextBlockOffset), num * requested, requested) then None
        else Sent(buffer[..payloadSize], num, requested)
      ensures nextBlockOffset == if block.None? then old(nextBlockOffset) else End(block.value)
    {
      hide AlreadyProvided;
      if num * requested < payloadSize {
        AlignedIsRight(buffer[..payloadSize], num, requested);
      }
      block := Reply(num * requested, requested);
    }

    method ReadBlock(offset: nat, size: nat) returns (bytes: seq<byte>)
      requires offset + size <= payloadSize <= buffer.Length
      ensures bytes == buffer[..payloadSize][offset..offset + size]
    {
      return buffer[offset..offset + size];
    }

    /** oc_blockwise_handle_block */
    method HandleBlock(offset: nat, block: seq<byte>) returns (ok: bool)
      requires Valid()
      modifies this`nextBlockOffset, buffer
      ensures Valid()
      ensures ok <==> Accepts(old(Received()), max, offset, |block|)
      ensures Received() == Handled(old(Received()), max, offset, block)
    {
      if offset >= max || |block| > max - offset || offset > nextBlockOffset {
        return false;
      }
      if nextBlockOffset == offset {
        ghost var received := Received();
        CopyBlock(offset, block);
        nextBlockOffset := nextBlockOffset + |block|;
        assert buffer[..nextBlockOffset] == received + block;
      }
      return true;
    }

    method CopyBlock(offset: nat, block: seq<byte>)
      requires offset + |block| <= buffer.Length
      modifies buffer
      ensures buffer[..offset] == old(buffer[..offset])
      ensures buffer[offset..offset + |block|] == block
    {
      for i := 0 to |block|
        invariant buffer[..offset] == old(buffer[..offset])
        invariant buffer[offset..offset + i] == block[..i]
      {
        buffer[offset + i] := block[i];
      }
    }
  }

  // ---------------------------------------------------------------------------
  // The protocol
  // ---------------------------------------------------------------------------

  /** A sender, a receiver, and every block put on the wire so far: each may arrive any number of
      times, at any time, or never. `next` is the sender's next offset while it has a buffer;
      `payloadSize` is set when the receiver accepts the last block. */
  datatype State = State(next: Option<nat>, received: seq<byte>, payloadSize: Option<nat>, wire: set<Block>)

  datatype Event = Request(num: nat, size: nat) | Arrival(block: Block)

  predicate Possible(s: State, e: Event) {
    e.Arrival? ==> e.block in s.wire
  }

  /** Without a buffer only block 0 is answered, by making one. */
  function Answer(payload: seq<byte>, next: Option<nat>, num: nat, size: nat): Option<Block> {
    if (if next.None? then num > 0 else AlreadyProvided(next.value, num * size, size)) then None
    else Sent(payload, num, size)
  }

  /** The buffer is freed once the last block has been sent from it. */
  function NextAfter(next: Option<nat>, answer: Option<Block>, num: nat): Option<nat> {
    if next.None? then (if num > 0 then None else if answer.Some? then Some(End(answer.value)) else Some(0))
    else if answer.None? then next
    else if answer.value.more then Some(End(answer.value)) else None
  }

  function Step(payload: seq<byte>, max: nat, s: State, e: Event): State {
    match e
    case Request(num, size) =>
      var answer := Answer(payload, s.next, num, size);
      s.(next := NextAfter(s.next, answer, num), wire := s.wire + if answer.Some? then {answer.value} else {})
    case Arrival(b) =>
      var received := Handled(s.received, max, b.offset, b.bytes);
      if b.bytes == [] || !Accepts(s.received, max, b.offset, |b.bytes|) then s
      else s.(received := received, payloadSize := if b.more then s.payloadSize else Some(|received|))
  }

  const START := State(None, [], None, {})

  function Run(payload: seq<byte>, max: nat, events: seq<Event>): State {
    if events == [] then START
    else Step(payload, max, Run(payload, max, events[..|events| - 1]), events[|events| - 1])
  }

  ghost predicate PossibleRun(payload: seq<byte>, max: nat, events: seq<Event>) {
    forall i :: 0 <= i < |events| ==> Possible(Run(payload, max, events[..i]), events[i])
  }

  /** A block that is a slice of the payload, and is marked as the last exactly when it ends it. */
  predicate Genuine(payload: seq<byte>, b: Block) {
    && End(b) <= |payload|
    && b.bytes == payload[b.offset..End(b)]
    && (!b.more <==> End(b) == |payload|)
  }

  ghost predicate Inv(payload: seq<byte>, max: nat, s: State) {
    && s.received <= payload && |s.received| <= max
    && forall b :: b in s.wire ==> Genuine(payload, b)
  }

  lemma SentIsGenuine(payload: seq<byte>, num: nat, size: nat)
    ensures Sent(payload, num, size).Some? ==> Genuine(payload, Sent(payload, num, size).value)
  {
  }

  lemma StepKeepsInv(payload: seq<byte>, max: nat, s: State, e: Event)
    requires Inv(payload, max, s) && Possible(s, e)
    ensures Inv(payload, max, Step(payload, max, s, e))
    ensures s.received <= Step(payload, max, s, e).received
  {
    match e
    case Request(num, size) =>
      SentIsGenuine(payload, num, size);
    case Arrival(b) =>
      if b.offset == |s.received| {
        assert payload[..b.offset] + b.bytes == payload[..b.offset + |b.bytes|];
      }
  }

  /** Over every run, whatever is lost, repeated or reordered and whatever block sizes are mixed:
      what has been received is a prefix of the payload, it never shrinks and it never exceeds the
      buffer. */
  lemma {:induction false} RunIsSafe(payload: seq<byte>, max: nat, events: seq<Event>)
    requires PossibleRun(payload, max, events)
    ensures Inv(payload, max, Run(payload, max, events))
    ensures events != [] ==> Run(payload, max, events[..|events| - 1]).received <= Run(payload, max, events).received
  {
    if events != [] {
      var front := events[..|events| - 1];
      assert forall i :: 0 <= i < |front| ==> front[..i] == events[..i];
      RunIsSafe(payload, max, front);
      StepKeepsInv(payload, max, Run(payload, max, front), events[|events| - 1]);
    }
  }

  /** An accepted last block announces the end. That is right exactly when the block was the next
      one, or everything had been received before. */
  lemma EndIsRight(payload: seq<byte>, max: nat, s: State, b: Block)
    requires Inv(payload, max, s) && b in s.wire && !b.more && b.bytes != []
    requires Accepts(s.received, max, b.offset, |b.bytes|)
    ensures var t := Step(payload, max, s, Arrival(b));
      && t.payloadSize == Some(|t.received|)
      && (t.received == payload <==> b.offset == |s.received| || s.received == payload)
  {
    StepKeepsInv(payload, max, s, Arrival(b));
  }

  /** With mixed block sizes it can go wrong: half of the payload in a small block, then the whole
      of it in a large one that counts as a repetition, and half of it is announced as all. */
  lemma MixedSizesEndEarly(payload: seq<byte>)
    requires |payload| == 32
    ensures var small, large := Sent(payload, 0, 16), Sent(payload, 0, 32);
      && small.Some? && large.Some?
      && var events := [Request(0, 16), Arrival(small.value), Request(0, 32), Arrival(large.value)];
      && PossibleRun(payload, 64, events)
      && Run(payload, 64, events).payloadSize == Some(16)
  {
    var small, large := Sent(payload, 0, 16).value, Sent(payload, 0, 32).value;
    var events := [Request(0, 16), Arrival(small), Request(0, 32), Arrival(large)];
    assert events[..1] == [Request(0, 16)] && events[..1][..0] == [];
    assert events[..2] == [Request(0, 16), Arrival(small)] && events[..2][..1] == events[..1];
    assert events[..3] == [Request(0, 16), Arrival(small), Request(0, 32)] && events[..3][..2] == events[..2];
    assert events[..0] == [] && events[..4] == events;
    var s1, s2 := State(Some(16), [], None, {small}), State(Some(16), small.bytes, None, {small});
    var s3 := State(None, small.bytes, None, {small, large});
    assert small == Block(0, payload[..16], true) && large == Block(0, payload[..32], false);
    assert Run(payload, 64, events[..0]) == START;
    assert Run(payload, 64, events[..1]) == s1;
    assert Run(payload, 64, events[..2]) == s2;
    assert Run(payload, 64, events[..3]) == s3;
  }

  ghost predicate OneSize(events: seq<Event>, size: nat) {
    forall i :: 0 <= i < |events| && events[i].Request? ==> events[i].size == size
  }

  predicate Aligned(n: nat, size: nat)
    requires size > 0
  {
    n % size == 0
  }

  /** What has been received ends at a block boundary or at the end of the payload, and only the
      whole of it has been announced as complete. */
  ghost predicate AlignedState(payload: seq<byte>, s: State, size: nat)
    requires size > 0
  {
    && (Aligned(|s.received|, size) || s.received == payload)
    && (s.payloadSize.Some? ==> s.received == payload && s.payloadSize.value == |payload|)
    && forall b :: b in s.wire ==> AlignedBlock(b, size)
  }

  predicate AlignedBlock(b: Block, size: nat)
    requires size > 0
  {
    Aligned(b.offset, size) && |b.bytes| <= size && (b.more ==> |b.bytes| == size)
  }

  lemma AlignedProduct(num: nat, size: nat)
    requires size > 0
    ensures Aligned(num * size, size) && num * size / size == num
  {
    var q := num * size / size;
    if q < num {
      LessProduct(q + 1, num, size);
    } else if q > num {
      LessProduct(num + 1, q, size);
    }
    assert q == num;
  }

  lemma LessProduct(a: nat, b: nat, size: nat)
    requires a <= b
    ensures a * size <= b * size
  {
  }

  lemma SentIsAligned(payload: seq<byte>, num: nat, size: nat)
    requires size > 0
    ensures Sent(payload, num, size).Some? ==> AlignedBlock(Sent(payload, num, size).value, size)
  {
    AlignedProduct(num, size);
  }

  lemma StepKeepsAligned(payload: seq<byte>, max: nat, s: State, e: Event, size: nat)
    requires size > 0 && Inv(payload, max, s) && Possible(s, e) && AlignedState(payload, s, size)
    requires e.Request? ==> e.size == size
    ensures AlignedState(payload, Step(payload, max, s, e), size)
  {
    match e
    case Request(num, _) =>
      SentIsAligned(payload, num, size);
    case Arrival(b) =>
      assert Genuine(payload, b) && AlignedBlock(b, size);
      StepKeepsInv(payload, max, s, e);
      if Aligned(|s.received|, size) {
        NextAligned(|s.received|, b.offset, size);
      }
  }

  /** Two multiples of the size are equal or at least a size apart, and the next one is behind. */
  lemma NextAligned(a: nat, b: nat, size: nat)
    requires size > 0 && Aligned(a, size) && Aligned(b, size)
    ensures Aligned(a + size, size)
    ensures b < a ==> b + size <= a
  {
    var m, n := a / size, b / size;
    assert a == m * size && b == n * size;
    AlignedProduct(m + 1, size);
    assert (m + 1) * size == a + size;
    if b < a {
      if n >= m {
        LessProduct(m, n, size);
      }
      LessProduct(n + 1, m, size);
      assert (n + 1) * size == b + size;
    }
  }

  /** So with one block size the end is announced only when all of the payload has been received. */
  lemma {:induction false} RunIsAligned(payload: seq<byte>, max: nat, events: seq<Event>, size: nat)
    requires size > 0 && PossibleRun(payload, max, events) && OneSize(events, size)
    ensures Inv(payload, max, Run(payload, max, events))
    ensures AlignedState(payload, Run(payload, max, events), size)
  {
    RunIsSafe(payload, max, events);
    if events != [] {
      var front := events[..|events| - 1];
      assert forall i :: 0 <= i < |front| ==> front[..i] == events[..i];
      RunIsAligned(payload, max, front, size);
      StepKeepsAligned(payload, max, Run(payload, max, front), events[|events| - 1], size);
    }
  }

  /** The sender has put the blocks before offset w on the wire, and no others; it goes on from w. */
  ghost predicate Served(payload: seq<byte>, s: State, size: nat, w: nat)
    requires size > 0
  {
    && (w == |payload| || (w < |payload| && Aligned(w, size)))
    && (forall num: nat :: num * size < w ==>
      Sent(payload, num, size).Some? && Sent(payload, num, size).value in s.wire)
    && (forall b :: b in s.wire ==> End(b) <= w)
    && (w < |payload| ==> s.next == if w == 0 then None else Some(w))
    && |s.received| <= w
  }

  /** While there is more to send, exactly the next block and the one before it are answered: a reply
      that is lost can be asked for again. */
  lemma AnsweredIsNear(payload: seq<byte>, w: nat, num: nat, size: nat)
    requires size > 0 && |payload| + size <= UINT32_RANGE && 0 < w < |payload| && Aligned(w, size)
    ensures Answer(payload, Some(w), num, size).Some? <==> num * size == w || num * size + size == w
    ensures num * size == w || num * size + size == w ==>
      Answer(payload, Some(w), num, size) ==
        Some(Block(num * size, payload[num * size..Min(num * size + size, |payload|)], num * size + size < |payload|))
  {
    var offset := num * size;
    AlignedProduct(num, size);
    if offset < w {
      NextAligned(w, offset, size);
    }
    NearIsProvided(w, offset, size, |payload|);
    hide AlreadyProvided;
  }

  lemma NearIsProvided(w: nat, offset: nat, size: nat, length: nat)
    requires length + size <= UINT32_RANGE && w < length
    ensures offset < length ==> (AlreadyProvided(w, offset, size) <==> offset > w || offset + size < w)
  {
  }

  lemma SameNumber(a: nat, b: nat, size: nat)
    requires size > 0 && a * size == b * size
    ensures a == b
  {
    AlignedProduct(a, size);
    AlignedProduct(b, size);
  }

  /** The block at w takes the sender on. */
  lemma ServedNext(payload: seq<byte>, max: nat, s: State, num: nat, size: nat, w: nat)
    requires size > 0 && Served(payload, s, size, w) && w < |payload| && num * size == w
    requires Answer(payload, s.next, num, size) == Sent(payload, num, size)
    ensures Served(payload, Step(payload, max, s, Request(num, size)), size, Min(w + size, |payload|))
  {
    var t, b, end := Step(payload, max, s, Request(num, size)), Sent(payload, num, size).value,
      Min(w + size, |payload|);
    assert End(b) == end;
    AlignedProduct(num, size);
    NextAligned(w, w, size);
    forall n: nat | n * size < end ensures Sent(payload, n, size).Some? && Sent(payload, n, size).value in t.wire {
      if n * size >= w {
        AlignedProduct(n, size);
        if n * size > w {
          NextAligned(n * size, w, size);
        }
        SameNumber(n, num, size);
      }
    }
  }

  lemma StepKeepsServed(payload: seq<byte>, max: nat, s: State, e: Event, size: nat, w: nat) returns (w': nat)
    requires size > 0 && |payload| + size <= UINT32_RANGE && Inv(payload, max, s) && Possible(s, e)
    requires Served(payload, s, size, w) && (e.Request? ==> e.size == size)
    ensures Served(payload, Step(payload, max, s, e), size, w')
    ensures w' == w || (e.Request? && e.num * size == w < |payload| && w' == Min(w + size, |payload|))
  {
    w' := w;
    if e.Request? {
      var answer := Answer(payload, s.next, e.num, size);
      if answer.Some? && w < |payload| {
        if w > 0 {
          AnsweredIsNear(payload, w, e.num, size);
        }
        if e.num * size == w {
          w' := Min(w + size, |payload|);
          ServedNext(payload, max, s, e.num, size, w);
        } else {
          assert Sent(payload, e.num, size).value in s.wire;
        }
      }
    } else {
      assert e.block in s.wire;
    }
  }

  lemma {:induction false} RunIsServed(payload: seq<byte>, max: nat, events: seq<Event>, size: nat) returns (w: nat)
    requires size > 0 && |payload| + size <= UINT32_RANGE && PossibleRun(payload, max, events) && OneSize(events, size)
    ensures Served(payload, Run(payload, max, events), size, w)
  {
    if events == [] {
      w := 0;
      assert Aligned(0, size);
    } else {
      var front := events[..|events| - 1];
      assert forall i :: 0 <= i < |front| ==> front[..i] == events[..i];
      w := RunIsServed(payload, max, front, size);
      RunIsSafe(payload, max, front);
      w := StepKeepsServed(payload, max, Run(payload, max, front), events[|events| - 1], size, w);
    }
  }

  /** Everything that holds after a run with one block size. */
  ghost predicate Good(payload: seq<byte>, max: nat, s: State, size: nat)
    requires size > 0
  {
    Inv(payload, max, s) && AlignedState(payload, s, size) && exists w :: Served(payload, s, size, w)
  }

  lemma StepKeepsGood(payload: seq<byte>, max: nat, s: State, e: Event, size: nat)
    requires size > 0 && |payload| + size <= UINT32_RANGE && Good(payload, max, s, size) && Possible(s, e)
    requires e.Request? ==> e.size == size
    ensures Good(payload, max, Step(payload, max, s, e), size)
  {
    var w :| Served(payload, s, size, w);
    StepKeepsInv(payload, max, s, e);
    StepKeepsAligned(payload, max, s, e, size);
    var w' := StepKeepsServed(payload, max, s, e, size, w);
  }

  /** The number of the block that the receiver needs next. */
  function NeededNumber(s: State, size: nat): nat
    requires size > 0
  {
    |s.received| / size
  }

  /** The block that the receiver needs next. */
  function Needed(payload: seq<byte>, size: nat, s: State): Option<Block>
    requires size > 0
  {
    Sent(payload, NeededNumber(s, size), size)
  }

  /** The needed block is requested, whether it has been sent before or not. */
  function Asked(payload: seq<byte>, max: nat, size: nat, s: State): State
    requires size > 0
  {
    Step(payload, max, s, Request(NeededNumber(s, size), size))
  }

  /** A round: the needed block is requested, and a copy of it arrives, if it has been sent then or
      before. */
  function Round(payload: seq<byte>, max: nat, size: nat, s: State): State
    requires size > 0
  {
    var asked, needed := Asked(payload, max, size, s), Needed(payload, size, s);
    if needed.Some? && needed.value in asked.wire then Step(payload, max, asked, Arrival(needed.value)) else asked
  }

  function Rounds(payload: seq<byte>, max: nat, size: nat, s: State, n: nat): State
    requires size > 0
    decreases n
  {
    if n == 0 then s else Rounds(payload, max, size, Round(payload, max, size, s), n - 1)
  }

  lemma RoundKeeps(payload: seq<byte>, max: nat, size: nat, s: State)
    requires size > 0 && |payload| + size <= UINT32_RANGE && Good(payload, max, s, size)
    ensures Good(payload, max, Round(payload, max, size, s), size)
  {
    var asked, needed := Asked(payload, max, size, s), Needed(payload, size, s);
    StepKeepsGood(payload, max, s, Request(NeededNumber(s, size), size), size);
    if needed.Some? && needed.value in asked.wire {
      StepKeepsGood(payload, max, asked, Arrival(needed.value), size);
    }
  }

  /** The sender never drops the request for the block that the receiver needs, unless that block has
      been sent before. */
  lemma NeededIsSent(payload: seq<byte>, max: nat, size: nat, s: State)
    requires size > 0 && Good(payload, max, s, size) && |s.received| < |payload|
    ensures Needed(payload, size, s).Some? && Needed(payload, size, s).value in Asked(payload, max, size, s).wire
    ensures Needed(payload, size, s).value.offset == |s.received| && Asked(payload, max, size, s).received == s.received
  {
    var w :| Served(payload, s, size, w);
    var num := NeededNumber(s, size);
    assert num * size == |s.received|;
    if |s.received| < w {
      assert Sent(payload, num, size).value in s.wire;
    } else {
      NextIsAnswered(payload, num, size);
      hide Answer;
    }
  }

  lemma NextIsAnswered(payload: seq<byte>, num: nat, size: nat)
    requires size > 0
    ensures var w := num * size;
      Answer(payload, if w == 0 then None else Some(w), num, size) == Sent(payload, num, size)
  {
    if num > 0 {
      Multiple(num, size);
    }
  }

  /** A round brings the next block in full, as long as it fits into the buffer. */
  lemma RoundProgress(payload: seq<byte>, max: nat, size: nat, s: State)
    requires size > 0 && |payload| + size <= UINT32_RANGE && Good(payload, max, s, size)
    requires |s.received| < |payload| <= max
    ensures var t := Round(payload, max, size, s);
      && |t.received| == Min(|s.received| + size, |payload|)
      && (t.received == payload ==> t.payloadSize == Some(|payload|))
  {
    NeededIsSent(payload, max, size, s);
    RoundKeeps(payload, max, size, s);
  }

  /** From every state that a run can reach, asking for what comes next completes the payload, in as
      many rounds as there are blocks left. */
  lemma {:induction false} RoundsComplete(payload: seq<byte>, max: nat, size: nat, s: State, n: nat)
    requires size > 0 && |payload| + size <= UINT32_RANGE && |payload| <= max && Good(payload, max, s, size)
    requires |s.received| < |payload| <= |s.received| + n * size
    ensures Rounds(payload, max, size, s, n).received == payload
    ensures Rounds(payload, max, size, s, n).payloadSize == Some(|payload|)
    decreases n
  {
    hide Good;
    hide Round;
    var t := Round(payload, max, size, s);
    assert n > 0;
    assert n * size == (n - 1) * size + size;
    RoundKeeps(payload, max, size, s);
    RoundProgress(payload, max, size, s);
    GoodIsPrefix(payload, max, size, t);
    if |t.received| < |payload| {
      RoundsComplete(payload, max, size, t, n - 1);
    } else {
      RoundsStay(payload, max, size, t, n - 1);
    }
  }

  lemma GoodIsPrefix(payload: seq<byte>, max: nat, size: nat, s: State)
    requires size > 0 && Good(payload, max, s, size)
    ensures s.received <= payload && |s.received| <= max
  {
  }

  lemma StaysDone(payload: seq<byte>, max: nat, size: nat, s: State)
    requires size > 0 && |payload| + size <= UINT32_RANGE && Good(payload, max, s, size)
    requires s.received == payload && s.payloadSize == Some(|payload|)
    ensures var t := Round(payload, max, size, s); t.received == payload && t.payloadSize == Some(|payload|)
  {
    RoundKeeps(payload, max, size, s);
  }

  lemma {:induction false} RoundsStay(payload: seq<byte>, max: nat, size: nat, s: State, n: nat)
    requires size > 0 && |payload| + size <= UINT32_RANGE && Good(payload, max, s, size)
    requires s.received == payload && s.payloadSize == Some(|payload|)
    ensures Rounds(payload, max, size, s, n).received == payload
    ensures Rounds(payload, max, size, s, n).payloadSize == Some(|payload|)
    decreases n
  {
    hide Good;
    hide Round;
    if n > 0 {
      StaysDone(payload, max, size, s);
      RoundKeeps(payload, max, size, s);
      RoundsStay(payload, max, size, Round(payload, max, size, s), n - 1);
    }
  }

  ghost predicate CanComplete(payload: seq<byte>, max: nat, size: nat, s: State)
    requires size > 0
  {
    exists n :: Rounds(payload, max, size, s, n).received == payload
  }

  /** Whether a transfer can still complete, at any point of any run, depends on the receiver's
      buffer alone. */
  lemma CompletesIffItFits(payload: seq<byte>, max: nat, size: nat, events: seq<Event>)
    requires size > 0 && |payload| + size <= UINT32_RANGE && PossibleRun(payload, max, events) && OneSize(events, size)
    ensures CanComplete(payload, max, size, Run(payload, max, events)) <==> |payload| <= max
  {
    var s := Run(payload, max, events);
    RunIsAligned(payload, max, events, size);
    var w := RunIsServed(payload, max, events, size);
    assert Good(payload, max, s, size);
    hide Good;
    if |payload| <= max {
      Completes(payload, max, size, s);
    }
    if CanComplete(payload, max, size, s) {
      var n :| Rounds(payload, max, size, s, n).received == payload;
      RoundsKeepGood(payload, max, size, s, n);
      GoodIsPrefix(payload, max, size, Rounds(payload, max, size, s, n));
    }
  }

  lemma Completes(payload: seq<byte>, max: nat, size: nat, s: State)
    requires size > 0 && |payload| + size <= UINT32_RANGE && |payload| <= max && Good(payload, max, s, size)
    ensures CanComplete(payload, max, size, s)
  {
    GoodIsPrefix(payload, max, size, s);
    if s.received == payload {
      assert Rounds(payload, max, size, s, 0).received == payload;
    } else {
      LessProduct(1, size, |payload|);
      RoundsComplete(payload, max, size, s, |payload|);
    }
  }

  lemma {:induction false} RoundsKeepGood(payload: seq<byte>, max: nat, size: nat, s: State, n: nat)
    requires size > 0 && |payload| + size <= UINT32_RANGE && Good(payload, max, s, size)
    ensures Good(payload, max, Rounds(payload, max, size, s, n), size)
    decreases n
  {
    hide Good;
    hide Round;
    if n > 0 {
      RoundKeeps(payload, max, size, s);
      RoundsKeepGood(payload, max, size, Round(payload, max, size, s), n - 1);
    }
  }

  // ---------------------------------------------------------------------------
  // Asking again
  // ---------------------------------------------------------------------------

  /** The requests of this client: for the block behind one that has arrived, and for block 0 only
      while nothing has. */
  predicate Asks(s: State, e: Event, size: nat) {
    e.Request? ==> e.size == size && e.num * size <= |s.received| && (e.num == 0 ==> s.received == [])
  }

  ghost predicate ClientRun(payload: seq<byte>, max: nat, events: seq<Event>, size: nat) {
    forall i :: 0 <= i < |events| ==> Asks(Run(payload, max, events[..i]), events[i], size)
  }

  /** The sender is at most one block ahead of the receiver; once it has sent everything it has no
      buffer, unless everything is one block. */
  ghost predicate Close(payload: seq<byte>, s: State, size: nat, w: nat)
    requires size > 0
  {
    && Served(payload, s, size, w) && w <= |s.received| + size
    && (w == |payload| && s.next.Some? ==> |payload| <= size && s.next == Some(|payload|))
  }

  lemma StepKeepsClose(payload: seq<byte>, max: nat, s: State, e: Event, size: nat, w: nat) returns (w': nat)
    requires size > 0 && |payload| + size <= UINT32_RANGE && Inv(payload, max, s) && Possible(s, e)
    requires Close(payload, s, size, w) && Asks(s, e, size)
    ensures Close(payload, Step(payload, max, s, e), size, w')
  {
    w' := StepKeepsServed(payload, max, s, e, size, w);
    if e.Request? {
      NextIsClose(payload, max, s, e.num, size, w, w');
    } else {
      StepKeepsInv(payload, max, s, e);
    }
  }

  lemma NextIsClose(payload: seq<byte>, max: nat, s: State, num: nat, size: nat, w: nat, w': nat)
    requires size > 0 && Close(payload, s, size, w) && num * size <= |s.received| && (num == 0 ==> s.received == [])
    requires w' == w || (num * size == w < |payload| && w' == Min(w + size, |payload|))
    requires Served(payload, Step(payload, max, s, Request(num, size)), size, w')
    ensures Close(payload, Step(payload, max, s, Request(num, size)), size, w')
  {
    var t := Step(payload, max, s, Request(num, size));
    if num > 0 {
      Multiple(num, size);
    }
    if w' == |payload| && t.next.Some? {
      assert |payload| <= size && t.next == Some(|payload|);
    }
  }

  lemma {:induction false} RunIsClose(payload: seq<byte>, max: nat, events: seq<Event>, size: nat) returns (w: nat)
    requires size > 0 && |payload| + size <= UINT32_RANGE
    requires PossibleRun(payload, max, events) && ClientRun(payload, max, events, size)
    ensures Close(payload, Run(payload, max, events), size, w)
  {
    if events == [] {
      w := 0;
      assert Aligned(0, size);
    } else {
      var front := events[..|events| - 1];
      assert forall i :: 0 <= i < |front| ==> front[..i] == events[..i];
      w := RunIsClose(payload, max, front, size);
      RunIsSafe(payload, max, front);
      w := StepKeepsClose(payload, max, Run(payload, max, front), events[|events| - 1], size, w);
    }
  }

  /** Part of the payload is there, and the sender has freed its buffer behind the last block. */
  predicate LastIsLost(payload: seq<byte>, s: State) {
    s.next.None? && 0 < |s.received| < |payload|
  }

  /** The needed block is asked for, and the sender's reply arrives, if there is one: nothing that was
      sent before does. */
  function FreshRound(payload: seq<byte>, max: nat, size: nat, s: State): State
    requires size > 0
  {
    var num := NeededNumber(s, size);
    var answer, asked := Answer(payload, s.next, num, size), Step(payload, max, s, Request(num, size));
    if answer.Some? then Step(payload, max, asked, Arrival(answer.value)) else asked
  }

  function FreshRounds(payload: seq<byte>, max: nat, size: nat, s: State, n: nat): State
    requires size > 0
    decreases n
  {
    if n == 0 then s else FreshRounds(payload, max, size, FreshRound(payload, max, size, s), n - 1)
  }

  ghost predicate Reachable(payload: seq<byte>, max: nat, s: State, size: nat)
    requires size > 0
  {
    && Inv(payload, max, s) && AlignedState(payload, s, size)
    && exists w :: Close(payload, s, size, w)
  }

  /** A request for the needed block is answered with it, also when it has been sent before, unless it
      is the last one and has been. */
  lemma NeededIsAnswered(payload: seq<byte>, max: nat, size: nat, s: State)
    requires size > 0 && |payload| + size <= UINT32_RANGE && Reachable(payload, max, s, size)
    requires |s.received| < |payload|
    ensures Answer(payload, s.next, NeededNumber(s, size), size) ==
      if LastIsLost(payload, s) then None else Sent(payload, NeededNumber(s, size), size)
    ensures Sent(payload, NeededNumber(s, size), size).Some?
    ensures Sent(payload, NeededNumber(s, size), size).value.offset == |s.received|
  {
    hide Answer;
    hide SentAt;
    hide AlignedState;
    var w: nat :| Close(payload, s, size, w);
    hide Served;
    var r: nat, num: nat := |s.received|, NeededNumber(s, size);
    WhereSent(payload, max, size, s, w);
    SentThere(payload, num, size);
    if r < w < |payload| {
      AnsweredIsNear(payload, w, num, size);
      SentIsBlock(payload, num, size);
    } else if r < w {
      LastAnswered(payload, s.next, num, size);
    } else {
      NextIsAnswered(payload, num, size);
    }
  }

  /** What the sender's position is when the receiver still needs a block. */
  lemma WhereSent(payload: seq<byte>, max: nat, size: nat, s: State, w: nat)
    requires size > 0 && Inv(payload, max, s) && AlignedState(payload, s, size) && Close(payload, s, size, w)
    requires |s.received| < |payload|
    ensures var r := |s.received|;
      && r / size * size == r && (r == 0 <==> r / size == 0)
      && (w == r || w == r + size || (r < w == |payload|))
      && (w < |payload| ==> Aligned(w, size) && s.next == if w == 0 then None else Some(w))
      && (w == |payload| && s.next.Some? ==> r == 0 && |payload| <= size && s.next == Some(|payload|))
  {
    var r := |s.received|;
    assert r / size * size == r;
    if r < w < |payload| {
      NextAligned(w, r, size);
    }
    if r > 0 {
      Multiple(r / size, size);
    }
  }

  lemma SentThere(payload: seq<byte>, num: nat, size: nat)
    requires num * size < |payload|
    ensures Sent(payload, num, size).Some? && Sent(payload, num, size).value.offset == num * size
  {
  }

  lemma SentIsBlock(payload: seq<byte>, num: nat, size: nat)
    requires num * size < |payload|
    ensures Sent(payload, num, size) ==
      Some(Block(num * size, payload[num * size..Min(num * size + size, |payload|)], num * size + size < |payload|))
  {
  }

  lemma LastAnswered(payload: seq<byte>, next: Option<nat>, num: nat, size: nat)
    requires next.Some? ==> num == 0 && |payload| <= size && next == Some(|payload|)
    ensures Answer(payload, next, num, size) == if next.None? && num > 0 then None else Sent(payload, num, size)
  {
    hide Sent;
    if next.Some? {
      assert num * size == 0;
      assert !AlreadyProvided(|payload|, 0, size);
    }
  }

  /** Over every run of this client, losses included: the needed block can be asked for again, unless it
      is the last one of several and has been sent. */
  lemma LostCanBeAskedFor(payload: seq<byte>, max: nat, size: nat, events: seq<Event>)
    requires size > 0 && |payload| + size <= UINT32_RANGE
    requires PossibleRun(payload, max, events) && ClientRun(payload, max, events, size)
    requires |Run(payload, max, events).received| < |payload|
    ensures var s := Run(payload, max, events);
      Answer(payload, s.next, NeededNumber(s, size), size).None? <==> LastIsLost(payload, s)
  {
    RunIsReachable(payload, max, size, events);
    NeededIsAnswered(payload, max, size, Run(payload, max, events));
  }

  lemma AsksOneSize(payload: seq<byte>, max: nat, events: seq<Event>, size: nat)
    requires ClientRun(payload, max, events, size)
    ensures OneSize(events, size)
  {
    assert forall i :: 0 <= i < |events| ==> Asks(Run(payload, max, events[..i]), events[i], size);
  }

  lemma RunIsReachable(payload: seq<byte>, max: nat, size: nat, events: seq<Event>)
    requires size > 0 && |payload| + size <= UINT32_RANGE
    requires PossibleRun(payload, max, events) && ClientRun(payload, max, events, size)
    ensures Reachable(payload, max, Run(payload, max, events), size)
  {
    AsksOneSize(payload, max, events, size);
    RunIsAligned(payload, max, events, size);
    var w := RunIsClose(payload, max, events, size);
  }

  lemma FreshKeeps(payload: seq<byte>, max: nat, size: nat, s: State)
    requires size > 0 && |payload| + size <= UINT32_RANGE && Reachable(payload, max, s, size)
    requires |s.received| < |payload|
    ensures Reachable(payload, max, FreshRound(payload, max, size, s), size)
  {
    var num := NeededNumber(s, size);
    assert num * size == |s.received|;
    var ask := Request(num, size);
    var answer, asked := Answer(payload, s.next, num, size), Step(payload, max, s, ask);
    StepKeepsReachable(payload, max, s, ask, size);
    if answer.Some? {
      StepKeepsReachable(payload, max, asked, Arrival(answer.value), size);
    }
  }

  lemma StepKeepsReachable(payload: seq<byte>, max: nat, s: State, e: Event, size: nat)
    requires size > 0 && |payload| + size <= UINT32_RANGE && Reachable(payload, max, s, size) && Possible(s, e)
    requires Asks(s, e, size)
    ensures Reachable(payload, max, Step(payload, max, s, e), size)
  {
    var w :| Close(payload, s, size, w);
    StepKeepsInv(payload, max, s, e);
    StepKeepsAligned(payload, max, s, e, size);
    var w' := StepKeepsClose(payload, max, s, e, size, w);
  }

  /** A round of fresh replies brings the needed block, or changes nothing. */
  lemma FreshProgress(payload: seq<byte>, max: nat, size: nat, s: State)
    requires size > 0 && |payload| + size <= UINT32_RANGE && Reachable(payload, max, s, size)
    requires |s.received| < |payload| <= max
    ensures var t := FreshRound(payload, max, size, s);
      if LastIsLost(payload, s) then t == s
      else !LastIsLost(payload, t) && |t.received| == Min(|s.received| + size, |payload|)
  {
    NeededIsAnswered(payload, max, size, s);
    if LastIsLost(payload, s) {
      NothingComes(payload, max, size, s);
    } else {
      var num: nat := NeededNumber(s, size);
      GoodBlock(payload, num, size);
      BlockComes(payload, max, size, s, Sent(payload, num, size).value);
    }
  }

  lemma NothingComes(payload: seq<byte>, max: nat, size: nat, s: State)
    requires size > 0 && Answer(payload, s.next, NeededNumber(s, size), size).None?
    requires s.next.None? && NeededNumber(s, size) > 0
    ensures FreshRound(payload, max, size, s) == s
  {
  }

  lemma GoodBlock(payload: seq<byte>, num: nat, size: nat)
    requires size > 0 && num * size < |payload|
    ensures var b := Sent(payload, num, size).value;
      Sent(payload, num, size).Some? && b.bytes != [] && Genuine(payload, b) &&
      End(b) == Min(b.offset + size, |payload|)
  {
  }

  lemma BlockComes(payload: seq<byte>, max: nat, size: nat, s: State, b: Block)
    requires size > 0 && Inv(payload, max, s) && |payload| <= max
    requires Answer(payload, s.next, NeededNumber(s, size), size) == Some(b)
    requires b.bytes != [] && Genuine(payload, b)
    requires b.offset == |s.received| && End(b) == Min(b.offset + size, |payload|)
    ensures var t := FreshRound(payload, max, size, s);
      && t.received == s.received + b.bytes
      && (t.next.None? ==> t.received == payload)
  {
    var t := FreshRound(payload, max, size, s);
    assert t.received == s.received + b.bytes;
    if t.next.None? {
      assert payload[..b.offset] + b.bytes == payload;
    }
  }

  ghost predicate CanFinishAfresh(payload: seq<byte>, max: nat, size: nat, s: State)
    requires size > 0
  {
    exists n: nat :: FreshRounds(payload, max, size, s, n).received == payload
  }

  /** So a transfer can be completed with fresh replies alone, at any point of any run of this client,
      exactly when there is nothing left to get, or the payload fits and the buffer has not been freed
      with the last block under way. */
  lemma FinishesAfreshIff(payload: seq<byte>, max: nat, size: nat, events: seq<Event>)
    requires size > 0 && |payload| + size <= UINT32_RANGE
    requires PossibleRun(payload, max, events) && ClientRun(payload, max, events, size)
    ensures var s := Run(payload, max, events);
      CanFinishAfresh(payload, max, size, s) <==>
        s.received == payload || (|payload| <= max && !LastIsLost(payload, s))
  {
    var s := Run(payload, max, events);
    RunIsReachable(payload, max, size, events);
    hide Reachable;
    hide FreshRound;
    hide LastIsLost;
    if s.received == payload {
      assert FreshRounds(payload, max, size, s, 0).received == payload;
    } else if |payload| <= max && !LastIsLost(payload, s) {
      ReachableIsPrefix(payload, max, size, s);
      LessProduct(1, size, |payload|);
      FreshCompletes(payload, max, size, s, |payload|);
    } else if CanFinishAfresh(payload, max, size, s) {
      var n: nat :| FreshRounds(payload, max, size, s, n).received == payload;
      FreshStuck(payload, max, size, s, n);
    }
  }

  lemma ReachableIsPrefix(payload: seq<byte>, max: nat, size: nat, s: State)
    requires size > 0 && Reachable(payload, max, s, size)
    ensures s.received <= payload && |s.received| <= max
  {
  }

  lemma {:induction false} FreshCompletes(payload: seq<byte>, max: nat, size: nat, s: State, n: nat)
    requires size > 0 && |payload| + size <= UINT32_RANGE && |payload| <= max && Reachable(payload, max, s, size)
    requires !LastIsLost(payload, s) && |s.received| < |payload| <= |s.received| + n * size
    ensures CanFinishAfresh(payload, max, size, s)
    decreases n
  {
    hide Reachable;
    hide FreshRound;
    hide LastIsLost;
    var t := FreshRound(payload, max, size, s);
    assert n > 0;
    assert n * size == (n - 1) * size + size;
    FreshKeeps(payload, max, size, s);
    FreshProgress(payload, max, size, s);
    ReachableIsPrefix(payload, max, size, t);
    if |t.received| < |payload| {
      FreshCompletes(payload, max, size, t, n - 1);
      var k: nat :| FreshRounds(payload, max, size, t, k).received == payload;
      assert FreshRounds(payload, max, size, s, k + 1).received == payload;
    } else {
      assert FreshRounds(payload, max, size, t, 0) == t;
      assert FreshRounds(payload, max, size, s, 1).received == payload;
    }
  }

  lemma {:induction false} FreshStuck(payload: seq<byte>, max: nat, size: nat, s: State, n: nat)
    requires size > 0 && |payload| + size <= UINT32_RANGE && Reachable(payload, max, s, size)
    requires s.received != payload && (|payload| > max || LastIsLost(payload, s))
    ensures FreshRounds(payload, max, size, s, n).received != payload
    decreases n
  {
    hide Reachable;
    hide FreshRound;
    hide LastIsLost;
    if n > 0 {
      var t := FreshRound(payload, max, size, s);
      ReachableIsPrefix(payload, max, size, s);
      assert |s.received| < |payload|;
      FreshKeeps(payload, max, size, s);
      ReachableIsPrefix(payload, max, size, t);
      if |payload| <= max {
        FreshProgress(payload, max, size, s);
      }
      FreshStuck(payload, max, size, t, n - 1);
    }
  }

  /** A run in which that happens: two blocks, and the reply with the second is lost. */
  lemma SecondOfTwoIsLost(payload: seq<byte>)
    requires |payload| == 32
    ensures var first := Sent(payload, 0, 16);
      && first.Some?
      && var events := [Request(0, 16), Arrival(first.value), Request(1, 16)];
      && PossibleRun(payload, 64, events) && ClientRun(payload, 64, events, 16)
      && LastIsLost(payload, Run(payload, 64, events))
  {
    var first, second := Sent(payload, 0, 16).value, Sent(payload, 1, 16).value;
    var events := [Request(0, 16), Arrival(first), Request(1, 16)];
    assert events[..1] == [Request(0, 16)] && events[..1][..0] == [];
    assert events[..2] == [Request(0, 16), Arrival(first)] && events[..2][..1] == events[..1];
    assert events[..0] == [] && events[..3] == events;
    assert first == Block(0, payload[..16], true) && second == Block(16, payload[16..], false);
    assert Run(payload, 64, events[..1]) == State(Some(16), [], None, {first});
    assert Run(payload, 64, events[..2]) == State(Some(16), first.bytes, None, {first});
    assert Run(payload, 64, events[..3]) == State(None, first.bytes, None, {first, second});
  }
}
