/** The window as the 32-bit word that it is in the program: each step on the word is the step on the
    set of its one-bits. */
module ReplayWord {
  import opened Wrappers
  import opened WordBits
  import opened Replay

  /** The part of oc_replay_check_client that follows once a record has been found; `shl32` is what the
      machine gives for 1 << 32. */
  method CheckWord(r: Record, window: uint32, ssn: ssn, rplwdo: nat, shl32: uint32)
    returns (accept: bool, rxSsn: ssn, word: uint32)
    requires r.window == Bits(window)
    ensures (accept, r.(rxSsn := rxSsn, window := Bits(word))) == Decide(r, ssn, rplwdo, Bits(shl32))
  {
    rxSsn, word := r.rxSsn, window;
    var diff := SsnDiff(r.rxSsn, ssn);
    if diff >= 0 {
      if diff > 32 {
        return false, rxSsn, word;
      }
      accept, word := TestAndSetWord(r, window, diff, shl32);
    } else if -diff <= rplwdo {
      rxSsn := ssn;
      word := SlideWord(window, -diff);
      accept := true;
    } else {
      accept := false;
    }
  }

  method TestAndSetWord(r: Record, window: uint32, diff: nat, shl32: uint32) returns (accept: bool, word: uint32)
    requires r.window == Bits(window) && diff <= 32
    ensures (accept, r.(window := Bits(word))) == TestAndSet(r, diff, Bits(shl32))
  {
    var one := if diff < 32 then ShiftLeft(1, diff) else shl32;
    AndMeets(window, one);
    OrIsUnion(window, one);
    if diff < 32 {
      OneIsSingleton(diff);
    }
    if And(window, one) != 0 {
      return false, window;
    }
    return true, Or(window, one);
  }

  method SlideWord(window: uint32, k: nat) returns (word: uint32)
    requires k > 0
    ensures Bits(word) == Moved(Bits(window), k)
  {
    if k >= 32 {
      word := 0;
      EmptyWord();
    } else {
      word := ShiftLeft(window, k);
      ShiftIsShl(window, k);
    }
    OrIsUnion(word, 1);
    OneIsSingleton(0);
    word := Or(word, 1);
  }

  lemma EmptyWord()
    ensures Bits(0) == {}
  {
    forall d: nat | d < 32 ensures !Bit(0, d) {
      ZeroHasNoBit(d);
    }
  }
}
