/** The Attempt object of a pairing in progress. */
module PairingAttempt {
  import opened P = Pairing

  class Attempt {
    const devicePub: string
    const startedAt: int
    var satisfied: set<Factor>
    var consumed: bool
    var completedA: bool

    function State(): AttemptState
      reads this
    {
      AttemptState(devicePub, startedAt, satisfied, consumed)
    }

    constructor (devicePub: string, now: int)
      ensures State() == NewAttempt(devicePub, now) && !completedA
    {
      this.devicePub, startedAt := devicePub, now;
      satisfied, consumed, completedA := {}, false, false;
    }

    method Satisfy(f: Factor, good: bool, now: int) returns (answer: Answer)
      modifies this`satisfied
      ensures (State(), answer) == P.Satisfy(old(State()), f, good, now)
    {
      if consumed {
        return AlreadyConsumed;
      }
      if now - startedAt > PAIRING_TTL {
        return PastTTL;
      }
      if !good {
        return BadEvidence;
      }
      satisfied := satisfied + {f};
      return Accepted;
    }

    method Outstanding() returns (out: seq<Factor>)
      ensures out == Missing(REQUIRED, satisfied)
    {
      out := [];
      for i := 0 to |REQUIRED|
        invariant out + Missing(REQUIRED[i..], satisfied) == Missing(REQUIRED, satisfied)
      {
        assert REQUIRED[i..] == [REQUIRED[i]] + REQUIRED[i + 1..];
        if REQUIRED[i] !in satisfied {
          out := out + [REQUIRED[i]];
        }
      }
      assert REQUIRED[|REQUIRED|..] == [];
    }

    method Complete(now: int) returns (answer: Answer)
      modifies this`consumed, this`completedA
      ensures (State(), answer) == P.Complete(old(State()), now)
      ensures completedA == (old(completedA) || answer == Accepted)
    {
      if consumed {
        return AlreadyConsumed;
      }
      if now - startedAt > PAIRING_TTL {
        return PastTTL;
      }
      var outstanding := Outstanding();
      if |outstanding| > 0 {
        return Incomplete;
      }
      consumed, completedA := true, true;
      return Accepted;
    }
  }
}
