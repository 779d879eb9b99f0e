/** The limiter of password handshakes: failures are counted, a timer counts them down, and more
    than ten of them block every further request until the count is back at zero. */
module HandshakeLimiter {
  import opened Wrappers

  const ALLOWED := 10
  const TICK_SECONDS := 10

  /** The two variables of the program; the rest counts what has happened, for the properties:
      requests admitted and not yet answered, the most there have been of those at a time,
      failures, ticks, and ticks since the limiter began to block. */
  datatype State = State(count: nat, blocking: bool, pending: nat, maxPending: nat, failures: nat, ticks: nat,
    blockedTicks: nat)

  const START := State(0, false, 0, 0, 0, 0, 0)

  /** A request arrives, one that was admitted fails or succeeds, the timer expires. */
  datatype Event = Request | Failure | Success | Tick

  class Limiter {
    var failedHandshakeCount: nat
    var isBlocking: bool

    constructor ()
      ensures failedHandshakeCount == 0 && !isBlocking
    {
      failedHandshakeCount := 0;
      isBlocking := false;
    }

    method DecrementCounter()
      modifies this
      ensures failedHandshakeCount == if old(failedHandshakeCount) > 0 then old(failedHandshakeCount) - 1 else 0
      ensures isBlocking == (old(isBlocking) && failedHandshakeCount > 0)
    {
      if failedHandshakeCount > 0 {
        failedHandshakeCount := failedHandshakeCount - 1;
      }
      if isBlocking && failedHandshakeCount == 0 {
        isBlocking := false;
      }
    }

    method IncrementCounter()
      modifies this
      ensures failedHandshakeCount == old(failedHandshakeCount) + 1 && isBlocking == old(isBlocking)
    {
      failedHandshakeCount := failedHandshakeCount + 1;
    }

    method IsHandshakeBlocked() returns (blocked: bool)
      modifies this
      ensures blocked == isBlocking == (old(isBlocking) || old(failedHandshakeCount) > 10)
      ensures failedHandshakeCount == old(failedHandshakeCount)
    {
      if isBlocking {
        return true;
      }
      if failedHandshakeCount > ALLOWED {
        isBlocking := true;
        return true;
      }
      return false;
    }

    method GetSecondsUntilUnblocked() returns (seconds: nat)
      ensures seconds == 10 * failedHandshakeCount
    {
      return failedHandshakeCount * TICK_SECONDS;
    }

    /** The start of oc_core_knx_spake_post_handler: a request that is turned away is told how long
        to wait. */
    method Admit() returns (wait: Option<nat>)
      modifies this
      ensures wait ==
        if old(isBlocking) || old(failedHandshakeCount) > 10 then Some(10 * failedHandshakeCount) else None
      ensures isBlocking == wait.Some? && failedHandshakeCount == old(failedHandshakeCount)
    {
      var blocked := IsHandshakeBlocked();
      if blocked {
        var seconds := GetSecondsUntilUnblocked();
        return Some(seconds);
      }
      return None;
    }
  }

  function Ticked(count: nat, blocking: bool): (nat, bool) {
    var n := if count > 0 then count - 1 else 0;
    (n, blocking && n != 0)
  }

  function Blocked(count: nat, blocking: bool): bool {
    blocking || count > ALLOWED
  }

  function Max(a: nat, b: nat): nat {
    if a < b then b else a
  }

  predicate Admits(s: State) {
    !Blocked(s.count, s.blocking)
  }

  predicate Possible(s: State, e: Event) {
    e == Failure || e == Success ==> s.pending > 0
  }

  function Step(s: State, e: Event): State
    requires Possible(s, e)
  {
    match e
    case Request =>
      if Admits(s) then s.(pending := s.pending + 1, maxPending := Max(s.maxPending, s.pending + 1))
      else s.(blocking := true, blockedTicks := if s.blocking then s.blockedTicks else 0)
    case Failure => s.(count := s.count + 1, pending := s.pending - 1, failures := s.failures + 1)
    case Success => s.(pending := s.pending - 1)
    case Tick =>
      var (n, b) := Ticked(s.count, s.blocking);
      s.(count := n, blocking := b, ticks := s.ticks + 1,
         blockedTicks := if s.blocking then s.blockedTicks + 1 else s.blockedTicks)
  }

  ghost predicate PossibleRun(s: State, events: seq<Event>)
    decreases |events|
  {
    events != [] ==> Possible(s, events[0]) && PossibleRun(Step(s, events[0]), events[1..])
  }

  function Run(s: State, events: seq<Event>): State
    requires PossibleRun(s, events)
    decreases |events|
  {
    if events == [] then s else Run(Step(s, events[0]), events[1..])
  }

  ghost predicate Inv(s: State) {
    && s.count + s.pending <= 10 + s.maxPending
    && s.pending <= s.maxPending
    && s.failures <= s.ticks + s.count
    && (s.blocking ==> s.count > 0 && s.count + s.blockedTicks > 10)
  }

  lemma StepKeepsInv(s: State, e: Event)
    requires Inv(s) && Possible(s, e)
    ensures Inv(Step(s, e))
  {
  }

  lemma {:induction false} RunKeepsInv(s: State, events: seq<Event>)
    requires Inv(s) && PossibleRun(s, events)
    ensures Inv(Run(s, events))
    decreases |events|
  {
    if events != [] {
      StepKeepsInv(s, events[0]);
      RunKeepsInv(Step(s, events[0]), events[1..]);
    }
  }

  /** Over every run: failures exceed the ticks by no more than ten and the requests that were once
      pending together, and a limiter that blocks has failures to count down. */
  lemma FailuresAreLimited(events: seq<Event>)
    requires PossibleRun(START, events)
    ensures var s := Run(START, events);
      && s.failures <= s.ticks + 10 + s.maxPending
      && (s.blocking ==> s.count > 0)
  {
    RunKeepsInv(START, events);
  }

  function Ticks(events: seq<Event>): nat {
    if events == [] then 0 else (if events[0] == Tick then 1 else 0) + Ticks(events[1..])
  }

  /** A limiter that blocks with n failures counted stays blocked for at least n ticks, whatever
      else happens; and a request that is turned away finds at least eleven. */
  lemma {:induction false} StaysBlocked(s: State, events: seq<Event>)
    requires s.blocking && s.count > 0 && PossibleRun(s, events)
    ensures Admits(Run(s, events)) ==> Ticks(events) >= s.count
    decreases |events|
  {
    if events != [] {
      var t := Step(s, events[0]);
      if t.blocking {
        StaysBlocked(t, events[1..]);
      }
    }
  }

  lemma ElevenTicks(s: State, events: seq<Event>)
    requires !s.blocking && s.count > 10 && PossibleRun(s, [Request] + events)
    ensures Step(s, Request).blocking
    ensures Admits(Run(s, [Request] + events)) ==> Ticks(events) > 10
  {
    assert ([Request] + events)[1..] == events;
    StaysBlocked(Step(s, Request), events);
  }

  /** The waiting time that is announced is right when nothing else fails: the limiter opens with
      the last of those ticks, and not before. */
  lemma {:induction false} AnnouncedTime(s: State, n: nat)
    requires s.blocking && s.count > 0 && n <= s.count
    ensures PossibleRun(s, seq(n, _ => Tick))
    ensures Admits(Run(s, seq(n, _ => Tick))) <==> 10 * n == 10 * s.count
    ensures Run(s, seq(n, _ => Tick)).count == s.count - n
    decreases n
  {
    var ticks := seq(n, _ => Tick);
    if n > 0 {
      assert ticks[1..] == seq(n - 1, _ => Tick);
      var t := Step(s, Tick);
      if t.count > 0 {
        AnnouncedTime(t, n - 1);
      } else {
        assert n == 1 && ticks[1..] == [];
      }
    }
  }

  /** The limit is exact: ten requests that fail one after the other, then k that are admitted
      together and all fail. */
  lemma LimitIsReached(k: nat)
    requires k > 0
    ensures var events := Singles(10) + (Requests(k) + Failures(k));
      && PossibleRun(START, events)
      && var s := Run(START, events);
      s.failures == s.ticks + 10 + s.maxPending && s.maxPending == k
  {
    var ten := State(10, false, 0, 1, 10, 0, 0);
    FailuresCounted(ten.(pending := k, maxPending := k), k);
    RequestsAdmitted(ten, k, Failures(k));
    SinglesCounted(START, 10, Requests(k) + Failures(k));
  }

  function Singles(n: nat): seq<Event> {
    if n == 0 then [] else [Request, Failure] + Singles(n - 1)
  }

  lemma {:induction false} SinglesCounted(s: State, n: nat, rest: seq<Event>)
    requires s.count + n <= 10 && !s.blocking && s.pending == 0 && s.maxPending <= 1
    requires PossibleRun(s.(count := s.count + n, failures := s.failures + n,
                            maxPending := if n > 0 then 1 else s.maxPending), rest)
    ensures PossibleRun(s, Singles(n) + rest)
    ensures Run(s, Singles(n) + rest) ==
      Run(s.(count := s.count + n, failures := s.failures + n, maxPending := if n > 0 then 1 else s.maxPending), rest)
    decreases n
  {
    var all := Singles(n) + rest;
    if n == 0 {
      assert all == rest;
    } else {
      var t := Step(Step(s, Request), Failure);
      assert all[1..] == [Failure] + (Singles(n - 1) + rest);
      assert all[1..][1..] == Singles(n - 1) + rest;
      SinglesCounted(t, n - 1, rest);
    }
  }

  function Requests(k: nat): seq<Event> {
    seq(k, _ => Request)
  }

  function Failures(k: nat): seq<Event> {
    seq(k, _ => Failure)
  }

  lemma {:induction false} RequestsAdmitted(s: State, k: nat, rest: seq<Event>)
    requires s.count <= 10 && !s.blocking && s.pending <= s.maxPending
    requires PossibleRun(s.(pending := s.pending + k, maxPending := Max(s.maxPending, s.pending + k)), rest)
    ensures PossibleRun(s, Requests(k) + rest)
    ensures Run(s, Requests(k) + rest) ==
      Run(s.(pending := s.pending + k, maxPending := Max(s.maxPending, s.pending + k)), rest)
    decreases k
  {
    var all := Requests(k) + rest;
    if k == 0 {
      assert all == rest;
    } else {
      assert all[1..] == Requests(k - 1) + rest;
      RequestsAdmitted(Step(s, Request), k - 1, rest);
    }
  }

  lemma {:induction false} FailuresCounted(s: State, k: nat)
    requires k <= s.pending
    ensures PossibleRun(s, Failures(k))
    ensures Run(s, Failures(k)) == s.(count := s.count + k, pending := s.pending - k, failures := s.failures + k)
    decreases k
  {
    if k > 0 {
      assert Failures(k)[1..] == Failures(k - 1);
      FailuresCounted(Step(s, Failure), k - 1);
    }
  }
}
