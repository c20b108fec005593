/** One pairing attempt: three factors within ten minutes, completed once. */
module Pairing {
  import opened Wrappers

  datatype Factor = Password | Totp | Passkey

  /** The whole chain; there is no shorter one. */
  const REQUIRED: seq<Factor> := [Password, Totp, Passkey]

  const ALL_FACTORS: set<Factor> := {Password, Totp, Passkey}

  const SECOND: nat := 1_000_000_000
  const PAIRING_TTL: nat := 600 * SECOND

  datatype AttemptState = AttemptState(devicePub: string, startedAt: int, satisfied: set<Factor>, consumed: bool)

  datatype Answer = Accepted | AlreadyConsumed | PastTTL | BadEvidence | Incomplete

  function NewAttempt(devicePub: string, now: int): AttemptState {
    AttemptState(devicePub, now, {}, false)
  }

  predicate Expired(a: AttemptState, now: int) {
    now - a.startedAt > PAIRING_TTL
  }

  /** Satisfy, for evidence the factor's verifier accepts or not. */
  function Satisfy(a: AttemptState, f: Factor, good: bool, now: int): (AttemptState, Answer) {
    if a.consumed then (a, AlreadyConsumed)
    else if Expired(a, now) then (a, PastTTL)
    else if !good then (a, BadEvidence)
    else (a.(satisfied := a.satisfied + {f}), Accepted)
  }

  /** The factors of `chain` that are missing. */
  function Missing(chain: seq<Factor>, satisfied: set<Factor>): seq<Factor> {
    if chain == [] then []
    else if chain[0] in satisfied then Missing(chain[1..], satisfied)
    else [chain[0]] + Missing(chain[1..], satisfied)
  }

  function Complete(a: AttemptState, now: int): (AttemptState, Answer) {
    if a.consumed then (a, AlreadyConsumed)
    else if Expired(a, now) then (a, PastTTL)
    else if Missing(REQUIRED, a.satisfied) != [] then (a, Incomplete)
    else (a.(consumed := true), Accepted)
  }

  lemma {:induction false} NothingMissing(chain: seq<Factor>, satisfied: set<Factor>)
    ensures Missing(chain, satisfied) == [] <==> forall f :: f in chain ==> f in satisfied
  {
    if chain != [] {
      NothingMissing(chain[1..], satisfied);
      assert chain == [chain[0]] + chain[1..];
    }
  }

  /** Completing succeeds exactly for an attempt that is not used up, not past its
      time, and has every factor. */
  lemma CompleteExactly(a: AttemptState, now: int)
    ensures Complete(a, now).1 == Accepted
       <==> !a.consumed && now - a.startedAt <= PAIRING_TTL && a.satisfied == ALL_FACTORS
  {
    NothingMissing(REQUIRED, a.satisfied);
    assert REQUIRED[0] == Password && REQUIRED[1] == Totp && REQUIRED[2] == Passkey;
    forall f: Factor ensures f in REQUIRED && f in ALL_FACTORS {
      match f
      case Password =>
      case Totp =>
      case Passkey =>
    }
  }

  /** What is missing, in the order of the chain. */
  lemma MissingExactly(satisfied: set<Factor>)
    ensures Missing(REQUIRED, satisfied)
         == (if Password in satisfied then [] else [Password]) + (if Totp in satisfied then [] else [Totp])
            + (if Passkey in satisfied then [] else [Passkey])
  {
    assert REQUIRED[1..] == [Totp, Passkey] && REQUIRED[1..][1..] == [Passkey] && REQUIRED[1..][1..][1..] == [];
    assert Missing([Passkey], satisfied) == if Passkey in satisfied then [] else [Passkey];
    assert Missing([Totp, Passkey], satisfied)
      == (if Totp in satisfied then [] else [Totp]) + Missing([Passkey], satisfied);
  }

  /** Why an attempt is not completed; the attempt then stays as it is. */
  lemma IncompleteExactly(a: AttemptState, now: int)
    ensures var (a', answer) := Complete(a, now);
      && (answer == AlreadyConsumed <==> a.consumed)
      && (answer == PastTTL <==> !a.consumed && now - a.startedAt > PAIRING_TTL)
      && (answer == Incomplete <==> !a.consumed && now - a.startedAt <= PAIRING_TTL && a.satisfied != ALL_FACTORS)
      && (answer == Accepted ==> a' == AttemptState(a.devicePub, a.startedAt, ALL_FACTORS, true))
      && (answer != Accepted ==> a' == a)
  {
    CompleteExactly(a, now);
    hide Missing;
  }
}
