/** OSCORE replay protection (section 7.4 of RFC 8613): a pool of records, one per client, each
    a 32-bit window of sequence numbers sliding behind the highest one received. A 32-bit word is
    the set of its one-bits here; WordBits relates that to the bit operations. */
module Replay {
  import opened Wrappers
  import opened WordBits

  const U64: nat := 0x1_0000_0000_0000_0000
  const HALF: nat := 0x8000_0000_0000_0000

  type ssn = n: nat | n < U64

  /** A client is known by its KID and KID context; an absent context is an empty one. */
  datatype Client = Client(kid: seq<byte>, ctx: seq<byte>)

  datatype Record = Record(rxSsn: ssn, client: Client, time: nat, window: Word, inUse: bool)

  const FREE := Record(0, Client([], []), 0, {}, false)

  // ---------------------------------------------------------------------------
  // One record and the set of numbers it stands for
  // ---------------------------------------------------------------------------

  /** rec->rx_ssn - rx_ssn, a uint64 difference read as an int64. */
  function SsnDiff(a: ssn, b: ssn): int {
    var d := if a >= b then a - b else a - b + U64;
    if d < HALF then d else d - U64
  }

  /** The record stands for the set `seen`: its number is the highest of them, and the bits of
      its window are exactly the members less than 32 behind. */
  ghost predicate Tracks(r: Record, seen: set<ssn>) {
    && r.rxSsn in seen
    && (forall s :: s in seen ==> s <= r.rxSsn < HALF)
    && r.window == Behind(r.rxSsn, seen)
  }

  function Behind(top: ssn, seen: set<ssn>): Word {
    set d: nat | d < 32 && SeenBehind(top, seen, d)
  }

  predicate SeenBehind(top: ssn, seen: set<ssn>, d: nat) {
    top - d in seen
  }

  /** The window after moving ahead by k and setting bit 0. */
  function Moved(w: Word, k: nat): Word {
    (if k >= 32 then {} else Shl(w, k)) + {0}
  }

  /** The test and update of one bit. `shl32` is what the machine gives for (uint32_t)1 << 32,
      which C leaves undefined and the test `> 32` lets through. */
  function TestAndSet(r: Record, diff: nat, shl32: Word): (bool, Record)
    requires diff <= 32
  {
    var bit: Word := if diff < 32 then {diff} else shl32;
    if r.window * bit != {} then (false, r) else (true, r.(window := r.window + bit))
  }

  /** What a check does with a matching record. */
  function Decide(r: Record, ssn: ssn, rplwdo: nat, shl32: Word): (bool, Record) {
    var diff := SsnDiff(r.rxSsn, ssn);
    if diff >= 0 then
      if diff > 32 then (false, r) else TestAndSet(r, diff, shl32)
    else if -diff <= rplwdo then (true, r.(rxSsn := ssn, window := Moved(r.window, -diff)))
    else (false, r)
  }

  /** Not seen, not 32 or more behind, and not further ahead than the configured window. */
  ghost predicate Acceptable(r: Record, seen: set<ssn>, ssn: ssn, rplwdo: nat) {
    && ssn !in seen
    && r.rxSsn - ssn < 32
    && ssn - r.rxSsn <= rplwdo
  }

  /** The outcome of a check against the set `seen`: exactly the acceptable numbers are accepted,
      what is accepted is added to the set, and the highest number never goes down. */
  ghost predicate Refines(r: Record, seen: set<ssn>, ssn: ssn, rplwdo: nat, result: (bool, Record)) {
    && (result.0 <==> Acceptable(r, seen, ssn, rplwdo))
    && Tracks(result.1, if result.0 then seen + {ssn} else seen)
    && result.1.rxSsn >= r.rxSsn
    && result.1 == r.(rxSsn := result.1.rxSsn, window := result.1.window)
  }

  lemma SlideRefines(r: Record, seen: set<ssn>, ssn: ssn, rplwdo: nat)
    requires Tracks(r, seen) && r.rxSsn < ssn < HALF && ssn - r.rxSsn <= rplwdo
    ensures Refines(r, seen, ssn, rplwdo, (true, r.(rxSsn := ssn, window := Moved(r.window, ssn - r.rxSsn))))
  {
    var ahead := ssn - r.rxSsn;
    forall d: nat | d < 32
      ensures d in Moved(r.window, ahead) <==> ssn - d in seen + {ssn}
    {
      if d >= ahead {
        assert ssn - d == r.rxSsn - (d - ahead);
        assert d - ahead in r.window <==> ssn - d in seen;
      }
    }
  }

  /** A check refines the set, unless the number is exactly 32 behind on a machine whose 1 << 32
      has bit 0 clear. */
  lemma DecideRefinesSet(r: Record, seen: set<ssn>, ssn: ssn, rplwdo: nat, shl32: Word)
    requires Tracks(r, seen) && ssn < HALF
    requires r.rxSsn - ssn == 32 ==> 0 in shl32
    ensures Refines(r, seen, ssn, rplwdo, Decide(r, ssn, rplwdo, shl32))
  {
    var diff := r.rxSsn - ssn;
    if 0 <= diff < 32 {
      assert diff in r.window <==> r.rxSsn - diff in seen;
      assert r.window + {diff} == Behind(r.rxSsn, seen + {ssn});
      assert r.window * {diff} != {} <==> diff in r.window;
    } else if diff == 32 {
      assert r.rxSsn - 0 in seen;
      assert 0 in r.window * shl32;
    } else if 0 < -diff <= rplwdo {
      SlideRefines(r, seen, ssn, rplwdo);
    }
  }
}
