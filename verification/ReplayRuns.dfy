/** Replay protection over whole runs: any interleaving of checks, syncs and releases. */
module ReplayRuns {
  import opened Wrappers
  import opened Replay
  import opened ReplayPool
  import opened WordBits

  function Step(cfg: Config, rs: seq<Record>, e: Event): (result: (bool, seq<Record>))
    requires |rs| > 0
    ensures |result.1| == |rs|
  {
    match e
    case Check(ssn, c, mcast, rplwdo, now) => Checked(cfg, rs, ssn, c, mcast, rplwdo, now)
    case Sync(ssn, c, now) => (false, Added(rs, ssn, c, now))
    case Release(kid) => (false, Released(rs, kid))
  }

  /** The pool after a run that starts with every record free. */
  function State(cfg: Config, run: seq<Event>): (rs: seq<Record>)
    ensures |rs| == MAX_RECORDS
  {
    if run == [] then seq(MAX_RECORDS, _ => FREE)
    else Step(cfg, State(cfg, run[..|run| - 1]), run[|run| - 1]).1
  }

  predicate Accepts(cfg: Config, run: seq<Event>, i: nat)
    requires i < |run|
  {
    Step(cfg, State(cfg, run[..i]), run[i]).0
  }

  /** Event i gives client c a record anew: a sync, or a trusted first multicast message. */
  predicate Resyncs(cfg: Config, run: seq<Event>, i: nat, c: Client)
    requires i < |run|
  {
    match run[i]
    case Sync(_, d, _) => d == c
    case Check(_, d, _, _, _) => d == c && Find(State(cfg, run[..i]), c) < 0 && Accepts(cfg, run, i)
    case Release(_) => false
  }

  /** Event i is a check that accepts this number of this client. */
  predicate AcceptsSsn(cfg: Config, run: seq<Event>, i: nat, c: Client, ssn: ssn)
    requires i < |run|
  {
    run[i].Check? && run[i].client == c && run[i].ssn == ssn && Accepts(cfg, run, i)
  }

  /** The numbers of client c taken since it was last given a record. */
  function Seen(cfg: Config, run: seq<Event>, c: Client): set<ssn> {
    if run == [] then {}
    else
      var n := |run| - 1;
      var e := run[n];
      var prior := Seen(cfg, run[..n], c);
      if Resyncs(cfg, run, n, c) then {e.ssn}
      else if e.Check? && e.client == c && Accepts(cfg, run, n) then prior + {e.ssn}
      else prior
  }

  /** Sequence numbers are at most 40 bits (section 7.2.1 of RFC 8613); 63 are enough here. */
  predicate Bounded(run: seq<Event>) {
    forall i :: 0 <= i < |run| && !run[i].Release? ==> run[i].ssn < HALF
  }

  /** Check i asks for a number exactly 32 behind its record: the shift C leaves undefined. */
  predicate AtEdge(cfg: Config, run: seq<Event>, i: nat)
    requires i < |run|
  {
    run[i].Check?
    && var rs := State(cfg, run[..i]);
       var k := Find(rs, run[i].client);
       k >= 0 && rs[k].rxSsn - run[i].ssn == 32
  }

  predicate Defined(cfg: Config, run: seq<Event>) {
    0 in cfg.shl32 || forall i :: 0 <= i < |run| ==> !AtEdge(cfg, run, i)
  }

  // ---------------------------------------------------------------------------
  // The invariant of the pool
  // ---------------------------------------------------------------------------

  predicate Known(r: Record) {
    r.inUse && r.client.kid != []
  }

  ghost predicate Inv(rs: seq<Record>, seen: Client -> set<ssn>) {
    && (forall i :: 0 <= i < |rs| && Known(rs[i]) ==> Tracks(rs[i], seen(rs[i].client)))
    && (forall i, j :: 0 <= i < j < |rs| && Known(rs[i]) && Known(rs[j]) ==> rs[i].client != rs[j].client)
  }

  lemma FindKnown(rs: seq<Record>, seen: Client -> set<ssn>, i: nat)
    requires Inv(rs, seen) && i < |rs| && Known(rs[i])
    ensures Find(rs, rs[i].client) == i
  {
    assert Matches(rs[i], rs[i].client);
  }

  lemma AddedInv(rs: seq<Record>, seen: Client -> set<ssn>, ssn: ssn, c: Client, now: nat, seen': Client -> set<ssn>)
    requires |rs| > 0 && Inv(rs, seen) && ssn < HALF
    requires seen'(c) == {ssn} && forall d :: d != c ==> seen'(d) == seen(d)
    ensures Inv(Added(rs, ssn, c, now), seen')
  {
    var rs' := Added(rs, ssn, c, now);
    var k := if Find(rs, c) >= 0 then Find(rs, c) else Slot(rs);
    assert Tracks(rs'[k], {ssn}) by {
      assert {0} == Behind(ssn, {ssn});
    }
    forall i | 0 <= i < |rs| && Known(rs'[i]) && i != k
      ensures rs'[i] == rs[i] && rs[i].client != c
    {
      FindKnown(rs, seen, i);
    }
  }

  lemma CheckedInv(cfg: Config, rs: seq<Record>, seen: Client -> set<ssn>, e: Event, seen': Client -> set<ssn>)
    requires |rs| > 0 && Inv(rs, seen) && e.Check? && e.ssn < HALF
    requires var k := Find(rs, e.client); k >= 0 && (rs[k].rxSsn - e.ssn == 32 ==> 0 in cfg.shl32)
    requires seen'(e.client) == seen(e.client) + if Step(cfg, rs, e).0 then {e.ssn} else {}
    requires forall d :: d != e.client ==> seen'(d) == seen(d)
    ensures Inv(Step(cfg, rs, e).1, seen')
    ensures Step(cfg, rs, e).0 <==> Acceptable(rs[Find(rs, e.client)], seen(e.client), e.ssn, e.rplwdo)
    ensures Step(cfg, rs, e).1[Find(rs, e.client)].rxSsn >= rs[Find(rs, e.client)].rxSsn
  {
    var k := Find(rs, e.client);
    var r := rs[k].(time := e.now);
    assert Tracks(r, seen(e.client));
    DecideRefinesSet(r, seen(e.client), e.ssn, e.rplwdo, cfg.shl32);
  }

  lemma ReleasedInv(rs: seq<Record>, seen: Client -> set<ssn>, kid: seq<byte>)
    requires Inv(rs, seen)
    ensures Inv(Released(rs, kid), seen)
  {
  }

  ghost function SeenOf(cfg: Config, run: seq<Event>): Client -> set<ssn> {
    c => Seen(cfg, run, c)
  }

  lemma PrefixDefined(cfg: Config, run: seq<Event>, n: nat)
    requires n <= |run| && Bounded(run) && Defined(cfg, run)
    ensures Bounded(run[..n]) && Defined(cfg, run[..n])
  {
    if 0 !in cfg.shl32 {
      forall i | 0 <= i < n
        ensures !AtEdge(cfg, run[..n], i)
      {
        assert run[..n][..i] == run[..i];
        assert !AtEdge(cfg, run, i);
      }
    }
  }

  /** After every run the pool stands for the sets of numbers taken: each record for its client's. */
  lemma {:induction false} InvHolds(cfg: Config, run: seq<Event>)
    requires Bounded(run) && Defined(cfg, run)
    ensures Inv(State(cfg, run), SeenOf(cfg, run))
  {
    if run != [] {
      var n := |run| - 1;
      PrefixDefined(cfg, run, n);
      InvHolds(cfg, run[..n]);
      var rs, e := State(cfg, run[..n]), run[n];
      var seen, seen' := SeenOf(cfg, run[..n]), SeenOf(cfg, run);
      if e.Release? {
        ReleasedInv(rs, seen, e.kid);
        InvSame(State(cfg, run), seen, seen');
      } else if Resyncs(cfg, run, n, e.client) {
        AddedInv(rs, seen, e.ssn, e.client, e.now, seen');
      } else if Find(rs, e.client) >= 0 {
        assert !AtEdge(cfg, run, n) || 0 in cfg.shl32;
        CheckedInv(cfg, rs, seen, e, seen');
      } else {
        InvSame(rs, seen, seen');
      }
    }
  }

  lemma InvSame(rs: seq<Record>, seen: Client -> set<ssn>, seen': Client -> set<ssn>)
    requires Inv(rs, seen) && forall c :: seen'(c) == seen(c)
    ensures Inv(rs, seen')
  {
  }

  /** The verdict on any next check, after any run: a client with a record has exactly its unseen
      numbers accepted that are less than 32 behind the highest and not too far ahead, and the
      highest never drops; without a record only a trusted first multicast message passes. */
  lemma CheckIsExact(cfg: Config, run: seq<Event>, e: Event)
    requires e.Check? && Bounded(run + [e]) && Defined(cfg, run + [e])
    ensures var rs := State(cfg, run);
            var k := Find(rs, e.client);
            var (accept, rs') := Step(cfg, rs, e);
            && (k >= 0 ==>
                  && (accept <==> Acceptable(rs[k], Seen(cfg, run, e.client), e.ssn, e.rplwdo))
                  && rs'[k].rxSsn >= rs[k].rxSsn)
            && (k < 0 ==> (accept <==> cfg.trustFirstMcast && e.mcast))
  {
    var n := |run|;
    assert (run + [e])[..n] == run;
    PrefixDefined(cfg, run + [e], n);
    InvHolds(cfg, run);
    var rs := State(cfg, run);
    if Find(rs, e.client) >= 0 {
      assert !AtEdge(cfg, run + [e], n) || 0 in cfg.shl32;
      var seen := SeenOf(cfg, run);
      var taken := if Step(cfg, rs, e).0 then {e.ssn} else {};
      CheckedInv(cfg, rs, seen, e, (c: Client) => if c == e.client then seen(c) + taken else seen(c));
    }
  }

  // ---------------------------------------------------------------------------
  // No replay
  // ---------------------------------------------------------------------------

  /** No number of a client is accepted twice unless the client got a record anew in between. */
  ghost predicate NoReplay(cfg: Config, run: seq<Event>) {
    forall i: nat, j: nat, c: Client, s: ssn ::
      i < j < |run| && c.kid != [] && AcceptsSsn(cfg, run, i, c, s) && AcceptsSsn(cfg, run, j, c, s)
      ==> exists k: nat :: i < k <= j && Resyncs(cfg, run, k, c)
  }

  lemma SeenNext(cfg: Config, run: seq<Event>, i: nat, c: Client)
    requires i < |run|
    ensures Seen(cfg, run[..i + 1], c) ==
            if Resyncs(cfg, run, i, c) then {run[i].ssn}
            else if run[i].Check? && run[i].client == c && Accepts(cfg, run, i) then
              Seen(cfg, run[..i], c) + {run[i].ssn}
            else Seen(cfg, run[..i], c)
  {
    assert run[..i + 1][..i] == run[..i];
  }

  lemma {:induction false} SeenPersists(cfg: Config, run: seq<Event>, i: nat, j: nat, c: Client, s: ssn)
    requires i <= j <= |run| && s in Seen(cfg, run[..i], c)
    requires forall k :: i <= k < j ==> !Resyncs(cfg, run, k, c)
    ensures s in Seen(cfg, run[..j], c)
  {
    if i < j {
      SeenPersists(cfg, run, i, j - 1, c, s);
      SeenNext(cfg, run, j - 1, c);
    }
  }

  lemma AcceptedIsUnseen(cfg: Config, run: seq<Event>, j: nat, c: Client, s: ssn)
    requires Bounded(run) && Defined(cfg, run) && j < |run|
    requires AcceptsSsn(cfg, run, j, c, s) && !Resyncs(cfg, run, j, c)
    ensures s !in Seen(cfg, run[..j], c)
  {
    PrefixDefined(cfg, run, j + 1);
    assert run[..j] + [run[j]] == run[..j + 1];
    CheckIsExact(cfg, run[..j], run[j]);
  }

  lemma RunIsSafe(cfg: Config, run: seq<Event>)
    requires Bounded(run) && Defined(cfg, run)
    ensures NoReplay(cfg, run)
  {
    forall i: nat, j: nat, c: Client, s: ssn
      | i < j < |run| && c.kid != [] && AcceptsSsn(cfg, run, i, c, s) && AcceptsSsn(cfg, run, j, c, s)
      ensures exists k: nat :: i < k <= j && Resyncs(cfg, run, k, c)
    {
      if forall k: nat :: i < k <= j ==> !Resyncs(cfg, run, k, c) {
        SeenNext(cfg, run, i, c);
        SeenPersists(cfg, run, i + 1, j, c, s);
        AcceptedIsUnseen(cfg, run, j, c, s);
      }
    }
  }

  /** A run that accepts number 1 twice where 1 << 32 has bit 0 clear: the second time it is
      exactly 32 behind. */
  const ALICE := Client([0x01], [])
  const EDGE_RUN: seq<Event> := [Sync(0, ALICE, 0), Check(1, ALICE, false, 32, 0), Check(33, ALICE, false, 32, 0),
    Check(1, ALICE, false, 32, 0)]

  lemma EdgeRunStates(cfg: Config)
    ensures var init := seq(MAX_RECORDS, _ => FREE);
            && State(cfg, EDGE_RUN[..1]) == init[0 := Record(0, ALICE, 0, {0}, true)]
            && State(cfg, EDGE_RUN[..2]) == init[0 := Record(1, ALICE, 0, {0, 1}, true)]
            && State(cfg, EDGE_RUN[..3]) == init[0 := Record(33, ALICE, 0, {0}, true)]
            && Accepts(cfg, EDGE_RUN, 1)
            && (0 !in cfg.shl32 ==> Accepts(cfg, EDGE_RUN, 3))
  {
    var init := seq(MAX_RECORDS, _ => FREE);
    assert EDGE_RUN[..1][..0] == [] && EDGE_RUN[..2][..1] == EDGE_RUN[..1] && EDGE_RUN[..3][..2] == EDGE_RUN[..2];
    assert State(cfg, []) == init;
    var s1 := State(cfg, EDGE_RUN[..1]);
    assert Find(init, ALICE) == -1 && Slot(init) == 0;
    assert s1 == init[0 := Record(0, ALICE, 0, {0}, true)];
    assert Matches(s1[0], ALICE) && Find(s1, ALICE) == 0;
    assert Moved({0}, 1) == {0, 1};
    var s2 := State(cfg, EDGE_RUN[..2]);
    assert s2 == init[0 := Record(1, ALICE, 0, {0, 1}, true)];
    assert Matches(s2[0], ALICE) && Find(s2, ALICE) == 0;
    assert Moved({0, 1}, 32) == {0};
    var s3 := State(cfg, EDGE_RUN[..3]);
    assert s3 == init[0 := Record(33, ALICE, 0, {0}, true)];
    assert Matches(s3[0], ALICE) && Find(s3, ALICE) == 0;
    assert SsnDiff(33, 1) == 32;
  }

  /** The comparison `> 32` at the edge of the window: every run is free of replays exactly when
      the machine's value of 1 << 32 has bit 0 set (so that bit 0, always set, refuses it). */
  lemma SafeIffEdgeRefused(cfg: Config)
    ensures (forall run :: Bounded(run) ==> NoReplay(cfg, run)) <==> 0 in cfg.shl32
  {
    if 0 in cfg.shl32 {
      forall run | Bounded(run)
        ensures NoReplay(cfg, run)
      {
        RunIsSafe(cfg, run);
      }
    } else {
      EdgeRunStates(cfg);
      var run := EDGE_RUN;
      assert Bounded(run);
      assert AcceptsSsn(cfg, run, 1, ALICE, 1) && AcceptsSsn(cfg, run, 3, ALICE, 1);
      assert Matches(State(cfg, run[..2])[0], ALICE) && Find(State(cfg, run[..2]), ALICE) >= 0;
      assert Matches(State(cfg, run[..3])[0], ALICE) && Find(State(cfg, run[..3]), ALICE) >= 0;
      assert !Resyncs(cfg, run, 2, ALICE) && !Resyncs(cfg, run, 3, ALICE);
      assert !NoReplay(cfg, run);
    }
  }

  // ---------------------------------------------------------------------------
  // Losing a record
  // ---------------------------------------------------------------------------

  /** What an event for another client can do to a record in use: nothing, unless the other
      client needs a new record, none is free, and this one is the least recently used. */
  lemma OthersAreKept(cfg: Config, rs: seq<Record>, e: Event, i: nat)
    requires |rs| > 0 && i < |rs| && rs[i].inUse
    requires if e.Release? then e.kid != rs[i].client.kid else e.client != rs[i].client
    ensures var (accept, rs') := Step(cfg, rs, e);
            || rs'[i] == rs[i]
            || (&& !e.Release? && Find(rs, e.client) < 0 && (e.Sync? || accept)
                && rs'[i].client == e.client
                && forall j :: 0 <= j < |rs| ==> rs[j].inUse && rs[i].time <= rs[j].time)
  {
  }

  /** A client whose record is gone has none, and no check of it is accepted, until it resyncs. */
  lemma {:induction false} LostUntilResync(cfg: Config, run: seq<Event>, i: nat, j: nat, c: Client)
    requires i <= j <= |run| && Find(State(cfg, run[..i]), c) < 0
    requires forall k :: i <= k < j ==> !Resyncs(cfg, run, k, c)
    ensures Find(State(cfg, run[..j]), c) < 0
    ensures forall k, s :: i <= k < j ==> !AcceptsSsn(cfg, run, k, c, s)
  {
    hide AcceptsSsn;
    hide Step;
    if i < j {
      LostUntilResync(cfg, run, i, j - 1, c);
      LostAcceptsNothing(cfg, run, j - 1, c);
      var rs, e := State(cfg, run[..j - 1]), run[j - 1];
      assert run[..j][..j - 1] == run[..j - 1];
      assert !Resyncs(cfg, run, j - 1, c);
      StaysLost(cfg, rs, e, c);
    }
  }

  lemma LostAcceptsNothing(cfg: Config, run: seq<Event>, k: nat, c: Client)
    requires k < |run| && Find(State(cfg, run[..k]), c) < 0
    ensures forall s :: !AcceptsSsn(cfg, run, k, c, s) || Resyncs(cfg, run, k, c)
  {
  }

  lemma StaysLost(cfg: Config, rs: seq<Record>, e: Event, c: Client)
    requires |rs| > 0 && Find(rs, c) < 0
    requires !e.Release? && e.client == c ==> e.Check? && !Step(cfg, rs, e).0
    ensures Find(Step(cfg, rs, e).1, c) < 0
  {
    var rs' := Step(cfg, rs, e).1;
    forall i | 0 <= i < |rs|
      ensures !Matches(rs'[i], c)
    {
      assert !Matches(rs[i], c);
    }
  }

  // ---------------------------------------------------------------------------
  // Who is evicted
  // ---------------------------------------------------------------------------

  /** When a message of client c last came in: a sync, or a check, accepted or not. */
  function LastHeard(run: seq<Event>, c: Client): Option<nat> {
    if run == [] then None
    else
      var e := run[|run| - 1];
      if !e.Release? && e.client == c then Some(e.now) else LastHeard(run[..|run| - 1], c)
  }

  function Heard(run: seq<Event>): Client -> Option<nat> {
    c => LastHeard(run, c)
  }

  /** Records belong to one client each, and carry the time at which it was last heard from. */
  ghost predicate Timed(rs: seq<Record>, heard: Client -> Option<nat>) {
    && (forall i :: 0 <= i < |rs| && Known(rs[i]) ==> heard(rs[i].client) == Some(rs[i].time))
    && (forall i, j :: 0 <= i < j < |rs| && Known(rs[i]) && Known(rs[j]) ==> rs[i].client != rs[j].client)
  }

  lemma FindTimed(rs: seq<Record>, heard: Client -> Option<nat>, i: nat)
    requires Timed(rs, heard) && i < |rs| && Known(rs[i])
    ensures Find(rs, rs[i].client) == i
  {
    assert Matches(rs[i], rs[i].client);
  }

  lemma AddedTimed(rs: seq<Record>, heard: Client -> Option<nat>, ssn: ssn, c: Client, now: nat,
          heard': Client -> Option<nat>)
    requires |rs| > 0 && Timed(rs, heard)
    requires heard'(c) == Some(now) && forall d :: d != c ==> heard'(d) == heard(d)
    ensures Timed(Added(rs, ssn, c, now), heard')
  {
    var rs' := Added(rs, ssn, c, now);
    var k := if Find(rs, c) >= 0 then Find(rs, c) else Slot(rs);
    forall i | 0 <= i < |rs| && Known(rs'[i]) && i != k
      ensures rs'[i] == rs[i] && rs[i].client != c
    {
      FindTimed(rs, heard, i);
    }
  }

  lemma CheckedTimed(cfg: Config, rs: seq<Record>, heard: Client -> Option<nat>, e: Event,
          heard': Client -> Option<nat>)
    requires |rs| > 0 && Timed(rs, heard) && e.Check? && Find(rs, e.client) >= 0
    requires heard'(e.client) == Some(e.now) && forall d :: d != e.client ==> heard'(d) == heard(d)
    ensures Timed(Step(cfg, rs, e).1, heard')
  {
    var rs', k := Step(cfg, rs, e).1, Find(rs, e.client);
    DecideKeepsTime(rs[k].(time := e.now), e.ssn, e.rplwdo, cfg.shl32);
    hide Decide;
    assert rs'[k].time == e.now && rs'[k].client == e.client;
    forall i | 0 <= i < |rs| && Known(rs'[i]) && i != k
      ensures rs'[i] == rs[i] && rs[i].client != e.client
    {
      FindTimed(rs, heard, i);
    }
  }

  lemma DecideKeepsTime(r: Record, ssn: ssn, rplwdo: nat, shl32: Word)
    ensures var q := Decide(r, ssn, rplwdo, shl32).1;
      q.time == r.time && q.client == r.client && q.inUse == r.inUse
  {
  }

  /** After every run, each record of a client carries the time at which it was last heard from. */
  lemma {:induction false} TimesAreLastHeard(cfg: Config, run: seq<Event>)
    ensures Timed(State(cfg, run), Heard(run))
  {
    if run != [] {
      var n := |run| - 1;
      TimesAreLastHeard(cfg, run[..n]);
      var rs, e := State(cfg, run[..n]), run[n];
      var heard, heard' := Heard(run[..n]), Heard(run);
      if e.Release? {
        ReleasedTimed(rs, heard, e.kid, heard');
      } else if e.Sync? || (Find(rs, e.client) < 0 && cfg.trustFirstMcast && e.mcast) {
        AddedTimed(rs, heard, e.ssn, e.client, e.now, heard');
      } else if Find(rs, e.client) >= 0 {
        CheckedTimed(cfg, rs, heard, e, heard');
      } else {
        RefusedTimed(rs, heard, e.client, heard');
      }
    }
  }

  lemma ReleasedTimed(rs: seq<Record>, heard: Client -> Option<nat>, kid: seq<byte>, heard': Client -> Option<nat>)
    requires Timed(rs, heard) && forall d :: heard'(d) == heard(d)
    ensures Timed(Released(rs, kid), heard')
  {
  }

  /** A check of a client without a record that is not trusted leaves nothing behind. */
  lemma RefusedTimed(rs: seq<Record>, heard: Client -> Option<nat>, c: Client, heard': Client -> Option<nat>)
    requires Timed(rs, heard) && Find(rs, c) < 0 && forall d :: d != c ==> heard'(d) == heard(d)
    ensures Timed(rs, heard')
  {
    forall i | 0 <= i < |rs| && Known(rs[i]) ensures rs[i].client != c {
      FindTimed(rs, heard, i);
    }
  }

  predicate HasRecord(cfg: Config, run: seq<Event>, c: Client) {
    Find(State(cfg, run), c) >= 0
  }

  lemma StillFound(rs: seq<Record>, i: nat, c: Client)
    requires i < |rs|
    ensures Matches(rs[i], c) ==> Find(rs, c) >= 0
  {
  }

  /** What an event does to the record of its own client: a sync gives it one, a check leaves it the
      one it has (and gives it one only as a trusted first multicast message), a release takes it. */
  lemma OwnRecord(cfg: Config, run: seq<Event>, e: Event, c: Client)
    requires c.kid != [] && if e.Release? then e.kid == c.kid else e.client == c
    ensures HasRecord(cfg, run + [e], c) <==>
      match e
      case Sync(_, _, _) => true
      case Check(_, _, mcast, _, _) => HasRecord(cfg, run, c) || (cfg.trustFirstMcast && mcast)
      case Release(_) => false
  {
    var rs := State(cfg, run);
    var rs' := Step(cfg, rs, e).1;
    assert (run + [e])[..|run|] == run;
    if e.Release? {
      assert forall i :: 0 <= i < |rs| ==> !Matches(rs'[i], c);
    } else if Find(rs, c) >= 0 {
      if e.Check? {
        DecideKeepsTime(rs[Find(rs, c)].(time := e.now), e.ssn, e.rplwdo, cfg.shl32);
      }
      StillFound(rs', Find(rs, c), c);
    } else {
      StillFound(rs', Slot(rs), c);
    }
  }

  /** Both have been heard from, c no later than d. */
  predicate NoLater(run: seq<Event>, c: Client, d: Client) {
    LastHeard(run, c).Some? && LastHeard(run, d).Some? && LastHeard(run, c).value <= LastHeard(run, d).value
  }

  /** After every run: an event that is not its own, nor a release of it, takes a client's record only
      when all records are in use, and only from a client that was heard from no later than any other
      with a record. */
  lemma EvictedIsLeastRecent(cfg: Config, run: seq<Event>, e: Event, c: Client)
    requires HasRecord(cfg, run, c) && !HasRecord(cfg, run + [e], c)
    requires if e.Release? then e.kid != c.kid else e.client != c
    ensures forall i :: 0 <= i < MAX_RECORDS ==> State(cfg, run)[i].inUse
    ensures forall d :: HasRecord(cfg, run, d) ==> NoLater(run, c, d)
  {
    var rs := State(cfg, run);
    var i: nat := Find(rs, c);
    assert (run + [e])[..|run|] == run;
    TimesAreLastHeard(cfg, run);
    OthersAreKept(cfg, rs, e, i);
    var rs' := Step(cfg, rs, e).1;
    StillFound(rs', i, c);
    assert rs'[i] != rs[i];
    forall d | HasRecord(cfg, run, d) ensures NoLater(run, c, d) {
      assert Known(rs[Find(rs, d)]) && Known(rs[i]);
    }
  }

  /** So a client that was heard from after another one with a record keeps its own. */
  lemma RecentIsKept(cfg: Config, run: seq<Event>, e: Event, c: Client, d: Client)
    requires HasRecord(cfg, run, c) && HasRecord(cfg, run, d)
    requires if e.Release? then e.kid != c.kid else e.client != c
    requires !NoLater(run, c, d)
    ensures HasRecord(cfg, run + [e], c)
  {
    if !HasRecord(cfg, run + [e], c) {
      EvictedIsLeastRecent(cfg, run, e, c);
    }
  }
}
