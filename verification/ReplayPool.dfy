/** The pool of replay records as the checks, syncs and releases of many clients drive it. */
module ReplayPool {
  import opened Wrappers
  import opened Replay
  import opened WordBits

  /** What differs between builds: the value of 1 << 32, and whether the first multicast message
      of an unknown client is trusted (OC_TRUST_FIRST_MCAST). */
  datatype Config = Config(shl32: Word, trustFirstMcast: bool)

  datatype Event =
    | Check(ssn: ssn, client: Client, mcast: bool, rplwdo: nat, now: nat)
    | Sync(ssn: ssn, client: Client, now: nat)
    | Release(kid: seq<byte>)

  const MAX_RECORDS := 20

  predicate Matches(r: Record, c: Client) {
    c.kid != [] && r.inUse && r.client == c
  }

  /** The first record of client c at index i or later; -1 if there is none. */
  function FindFrom(rs: seq<Record>, c: Client, i: nat): (k: int)
    requires i <= |rs|
    ensures k == -1 || i <= k < |rs|
    ensures k >= 0 ==> Matches(rs[k], c)
    ensures forall j :: i <= j < (if k >= 0 then k else |rs|) ==> !Matches(rs[j], c)
    decreases |rs| - i
  {
    if i == |rs| then -1 else if Matches(rs[i], c) then i else FindFrom(rs, c, i + 1)
  }

  function Find(rs: seq<Record>, c: Client): int {
    FindFrom(rs, c, 0)
  }

  function FirstFreeFrom(rs: seq<Record>, i: nat): (k: int)
    requires i <= |rs|
    ensures k == -1 || i <= k < |rs|
    ensures k >= 0 ==> !rs[k].inUse
    ensures k < 0 ==> forall j :: i <= j < |rs| ==> rs[j].inUse
    decreases |rs| - i
  {
    if i == |rs| then -1 else if !rs[i].inUse then i else FirstFreeFrom(rs, i + 1)
  }

  predicate AllInUse(rs: seq<Record>) {
    forall i :: 0 <= i < |rs| ==> rs[i].inUse
  }

  /** The record with the least time among the first n; the earliest of equals. */
  function Oldest(rs: seq<Record>, n: nat): (k: nat)
    requires 0 < n <= |rs|
    ensures k < n && forall j :: 0 <= j < n ==> rs[k].time <= rs[j].time
  {
    if n == 1 then 0
    else
      var k := Oldest(rs, n - 1);
      if rs[n - 1].time < rs[k].time then n - 1 else k
  }

  /** The record a new client gets: a free one, or else the least recently used. */
  function Slot(rs: seq<Record>): (k: nat)
    requires |rs| > 0
    ensures k < |rs|
  {
    var free := FirstFreeFrom(rs, 0);
    if free >= 0 then free else Oldest(rs, |rs|)
  }

  function Added(rs: seq<Record>, ssn: ssn, c: Client, now: nat): (rs': seq<Record>)
    requires |rs| > 0
    ensures |rs'| == |rs|
  {
    var k := Find(rs, c);
    if k >= 0 then rs[k := rs[k].(rxSsn := ssn, window := {0}, time := now)]
    else rs[Slot(rs) := Record(ssn, c, now, {0}, true)]
  }

  function Checked(cfg: Config, rs: seq<Record>, ssn: ssn, c: Client, mcast: bool, rplwdo: nat,
          now: nat): (result: (bool, seq<Record>))
    requires |rs| > 0
    ensures |result.1| == |rs|
  {
    var k := Find(rs, c);
    if k < 0 then
      if cfg.trustFirstMcast && mcast then (true, Added(rs, ssn, c, now)) else (false, rs)
    else
      var (accept, r) := Decide(rs[k].(time := now), ssn, rplwdo, cfg.shl32);
      (accept, rs[k := r])
  }

  function Released(rs: seq<Record>, kid: seq<byte>): (rs': seq<Record>)
    ensures |rs'| == |rs|
    ensures forall i :: 0 <= i < |rs| ==> rs'[i] == if rs[i].client.kid == kid then FREE else rs[i]
  {
    seq(|rs|, i requires 0 <= i < |rs| => if rs[i].client.kid == kid then FREE else rs[i])
  }

  // ---------------------------------------------------------------------------
  // The pool in place
  // ---------------------------------------------------------------------------

  class Pool {
    const records: array<Record>
    const cfg: Config

    constructor (cfg: Config)
      ensures fresh(records) && records.Length == MAX_RECORDS && this.cfg == cfg
      ensures forall i :: 0 <= i < MAX_RECORDS ==> records[i] == FREE
    {
      this.cfg := cfg;
      records := new Record[MAX_RECORDS](_ => FREE);
    }

    method FreeRecord(i: nat)
      requires i < records.Length
      modifies records
      ensures records[..] == old(records[..])[i := FREE]
    {
      records[i] := FREE;
    }

    method GetEmptyRecord() returns (k: nat)
      requires records.Length == MAX_RECORDS
      modifies records
      ensures k == Slot(old(records[..]))
      ensures records[..] ==
        if AllInUse(old(records[..])) then old(records[..])[k := FREE] else old(records[..])
    {
      ghost var rs := records[..];
      var i := 0;
      while i < MAX_RECORDS
        invariant 0 <= i <= MAX_RECORDS
        invariant FirstFreeFrom(rs, 0) == FirstFreeFrom(rs, i)
      {
        if !records[i].inUse {
          return i;
        }
        i := i + 1;
      }
      var oldest := 0;
      i := 1;
      while i < MAX_RECORDS
        invariant 1 <= i <= MAX_RECORDS
        invariant oldest == Oldest(rs, i)
      {
        if records[i].time < records[oldest].time {
          oldest := i;
        }
        i := i + 1;
      }
      FreeRecord(oldest);
      return oldest;
    }

    method GetRecord(c: Client) returns (k: int)
      requires records.Length == MAX_RECORDS
      ensures k == Find(records[..], c)
    {
      if |c.kid| == 0 {
        return -1;
      }
      var i := 0;
      while i < MAX_RECORDS
        invariant 0 <= i <= MAX_RECORDS
        invariant FindFrom(records[..], c, 0) == FindFrom(records[..], c, i)
      {
        var rec := records[i];
        if rec.inUse {
          var kidMatch := c.kid == rec.client.kid;
          var nullContexts := |c.ctx| == 0 && |rec.client.ctx| == 0;
          var contextsMatch := c.ctx == rec.client.ctx;
          if kidMatch && (nullContexts || contextsMatch) {
            return i;
          }
        }
        i := i + 1;
      }
      return -1;
    }

    method AddClient(ssn: ssn, c: Client, now: nat)
      requires records.Length == MAX_RECORDS
      modifies records
      ensures records[..] == Added(old(records[..]), ssn, c, now)
    {
      var k := GetRecord(c);
      if k == -1 {
        k := GetEmptyRecord();
        records[k] := records[k].(client := c, inUse := true);
      }
      records[k] := records[k].(rxSsn := ssn);
      records[k] := records[k].(window := {0});
      records[k] := records[k].(time := now);
    }

    method CheckClient(ssn: ssn, c: Client, mcast: bool, rplwdo: nat, now: nat) returns (accept: bool)
      requires records.Length == MAX_RECORDS
      modifies records
      ensures (accept, records[..]) == Checked(cfg, old(records[..]), ssn, c, mcast, rplwdo, now)
    {
      hide FindFrom;
      hide Added;
      hide Shl;
      var k := GetRecord(c);
      if k == -1 {
        if cfg.trustFirstMcast && mcast {
          AddClient(ssn, c, now);
          return true;
        }
        return false;
      }
      ghost var rs := records[..];
      records[k] := records[k].(time := now);
      var rec := records[k];
      var diff := SsnDiff(rec.rxSsn, ssn);
      if diff >= 0 {
        if diff > 32 {
          return false;
        }
        var bit: Word := if diff < 32 then {diff} else cfg.shl32;
        if rec.window * bit != {} {
          return false;
        }
        records[k] := rec.(window := rec.window + bit);
        assert records[..] == rs[k := Decide(rec, ssn, rplwdo, cfg.shl32).1];
        return true;
      } else if -diff <= rplwdo {
        records[k] := rec.(rxSsn := ssn);
        if -diff >= 32 {
          records[k] := records[k].(window := {});
        } else {
          records[k] := records[k].(window := Shl(rec.window, -diff));
        }
        records[k] := records[k].(window := records[k].window + {0});
        assert records[k].window == Moved(rec.window, -diff);
        assert records[..] == rs[k := Decide(rec, ssn, rplwdo, cfg.shl32).1];
        return true;
      }
      return false;
    }

    method FreeClient(kid: seq<byte>)
      modifies records
      ensures records[..] == Released(old(records[..]), kid)
    {
      ghost var rs := records[..];
      var i := 0;
      while i < records.Length
        invariant 0 <= i <= records.Length
        invariant records[..i] == Released(rs, kid)[..i]
        invariant records[i..] == rs[i..]
      {
        assert records[i] == records[i..][0] == rs[i];
        if kid == records[i].client.kid {
          FreeRecord(i);
        }
        i := i + 1;
      }
    }
  }
}
