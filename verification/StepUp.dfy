/** Step-up grants: one device, one action, once, within five minutes. */
module StepUp {
  import opened Wrappers

  const SECOND: nat := 1_000_000_000
  const STEP_UP_TTL: nat := 300 * SECOND

  const REVOKE_DEVICE: string := "revoke_device"
  const PAIR_DEVICE: string := "pair_device"
  const DELETE_BACKUP: string := "delete_backup"
  const CHANGE_SECURITY_SETTINGS: string := "change_security_settings"

  /** stepUpRegistry. */
  const REGISTRY: map<string, bool> := map[
    REVOKE_DEVICE := true, PAIR_DEVICE := true, DELETE_BACKUP := true, CHANGE_SECURITY_SETTINGS := true]

  /** RequiresStepUp: an action nobody registered needs a grant too. */
  predicate RequiresStepUp(action: string) {
    action in REGISTRY ==> REGISTRY[action]
  }

  function GrantKey(dev: string, action: string): string {
    dev + ['\0'] + action
  }

  type Grants = map<string, int>

  function Granted(g: Grants, dev: string, action: string, now: int): Grants {
    g[GrantKey(dev, action) := now + STEP_UP_TTL]
  }

  datatype Answer = Served | NoGrant | TooLate

  function Consumed(g: Grants, dev: string, action: string, now: int): (Grants, Answer) {
    var key := GrantKey(dev, action);
    if key !in g then (g, NoGrant)
    else (g - {key}, if now > g[key] then TooLate else Served)
  }

  class StepUpGate {
    var grants: Grants

    constructor ()
      ensures grants == map[]
    {
      grants := map[];
    }

    method Grant(dev: string, action: string, now: int)
      modifies this
      ensures grants == Granted(old(grants), dev, action, now)
    {
      grants := grants[GrantKey(dev, action) := now + STEP_UP_TTL];
    }

    method Consume(dev: string, action: string, now: int) returns (answer: Answer)
      modifies this
      ensures (grants, answer) == Consumed(old(grants), dev, action, now)
    {
      var key := GrantKey(dev, action);
      if key !in grants {
        return NoGrant;
      }
      var expiresAt := grants[key];
      grants := grants - {key};
      if now > expiresAt {
        return TooLate;
      }
      return Served;
    }
  }

  // ---- The text key stands for the pair ---------------------------------------------

  predicate NoNul(action: string) {
    '\0' !in action
  }

  /** For actions without NUL the key determines the pair, whatever the device id
      contains. */
  lemma GrantKeyInjective(d1: string, a1: string, d2: string, a2: string)
    requires NoNul(a1) && NoNul(a2)
    ensures GrantKey(d1, a1) == GrantKey(d2, a2) <==> d1 == d2 && a1 == a2
  {
    var k1, k2 := GrantKey(d1, a1), GrantKey(d2, a2);
    if k1 == k2 {
      assert k1[|d1|] == '\0' && k2[|d2|] == '\0';
      assert forall i :: |d1| < i < |k1| ==> k1[i] == a1[i - |d1| - 1] && k1[i] in a1;
      assert forall i :: |d2| < i < |k2| ==> k2[i] == a2[i - |d2| - 1] && k2[i] in a2;
      assert |d1| == |d2|;
      assert k1[..|d1|] == d1 && k2[..|d2|] == d2;
      assert k1[|d1| + 1..] == a1 && k2[|d2| + 1..] == a2;
    }
  }

  /** One action is the end of the other, with a NUL in front of it. */
  predicate EndsWith(action: string, other: string) {
    |other| < |action| && action[|action| - |other| - 1..] == ['\0'] + other
  }

  /** Exactly: two different actions can be confused, for some two devices, if and only
      if one of them ends with a NUL and the other. */
  lemma ConfusedExactly(a1: string, a2: string)
    requires a1 != a2
    ensures (exists d1, d2 :: GrantKey(d1, a1) == GrantKey(d2, a2)) <==> EndsWith(a1, a2) || EndsWith(a2, a1)
  {
    if exists d1, d2 :: GrantKey(d1, a1) == GrantKey(d2, a2) {
      var d1, d2 :| GrantKey(d1, a1) == GrantKey(d2, a2);
      SameKeyEnds(d1, a1, d2, a2);
    }
    if EndsWith(a1, a2) {
      EndsSameKey(a1, a2);
    }
    if EndsWith(a2, a1) {
      EndsSameKey(a2, a1);
    }
  }

  lemma SameKeyEnds(d1: string, a1: string, d2: string, a2: string)
    requires a1 != a2 && GrantKey(d1, a1) == GrantKey(d2, a2)
    ensures EndsWith(a1, a2) || EndsWith(a2, a1)
  {
    var k := GrantKey(d1, a1);
    assert k[|d1| + 1..] == a1 && k[|d2| + 1..] == a2 && k[|d1|] == '\0' && k[|d2|] == '\0';
    if |a1| < |a2| {
      assert a2[|a2| - |a1| - 1..] == k[|d1|..] == ['\0'] + a1;
    } else if |a2| < |a1| {
      assert a1[|a1| - |a2| - 1..] == k[|d2|..] == ['\0'] + a2;
    }
  }

  lemma EndsSameKey(a: string, b: string)
    requires EndsWith(a, b)
    ensures exists d1, d2 :: GrantKey(d1, a) == GrantKey(d2, b)
    ensures exists d1, d2 :: GrantKey(d1, b) == GrantKey(d2, a)
  {
    var x := a[..|a| - |b| - 1];
    assert a == x + (['\0'] + b);
    var d := ['\0'] + x;
    assert GrantKey([], a) == d + ['\0'] + b;
    assert GrantKey([], a) == GrantKey(d, b);
  }

  /** A grant serves its device and action exactly once, within five minutes, and no
      other device or action. */
  lemma GrantServesOnce(g: Grants, dev: string, action: string, granted: int, used: int, again: int,
                        other: string, act: string)
    requires NoNul(action) && NoNul(act)
    ensures var g1 := Granted(g, dev, action, granted);
      var (g2, answer) := Consumed(g1, dev, action, used);
      && (answer == Served <==> used <= granted + STEP_UP_TTL)
      && Consumed(g2, dev, action, again).1 == NoGrant
      && ((other, act) != (dev, action) ==> Consumed(g2, other, act, again).1 == Consumed(g, other, act, again).1)
  {
    GrantKeyInjective(dev, action, other, act);
    hide GrantKey;
  }

  type PairGrants = map<(string, string), int>

  datatype Op = DoGrant(dev: string, action: string, at: int) | DoConsume(dev: string, action: string, at: int)

  function Step(g: Grants, op: Op): (Grants, Option<Answer>) {
    match op
    case DoGrant(d, a, at) => (Granted(g, d, a, at), None)
    case DoConsume(d, a, at) => var (g', r) := Consumed(g, d, a, at); (g', Some(r))
  }

  /** The same over a map keyed by the pair. */
  function PairStep(g: PairGrants, op: Op): (PairGrants, Option<Answer>) {
    match op
    case DoGrant(d, a, at) => (g[(d, a) := at + STEP_UP_TTL], None)
    case DoConsume(d, a, at) =>
      if (d, a) !in g then (g, Some(NoGrant))
      else (g - {(d, a)}, Some(if at > g[(d, a)] then TooLate else Served))
  }

  function Answers(g: Grants, ops: seq<Op>): seq<Option<Answer>>
    decreases |ops|
  {
    if ops == [] then [] else [Step(g, ops[0]).1] + Answers(Step(g, ops[0]).0, ops[1..])
  }

  function PairAnswers(g: PairGrants, ops: seq<Op>): seq<Option<Answer>>
    decreases |ops|
  {
    if ops == [] then [] else [PairStep(g, ops[0]).1] + PairAnswers(PairStep(g, ops[0]).0, ops[1..])
  }

  ghost predicate Stands(g: Grants, p: PairGrants) {
    forall d, a :: NoNul(a) ==>
      (GrantKey(d, a) in g <==> (d, a) in p) && ((d, a) in p ==> g[GrantKey(d, a)] == p[(d, a)])
  }

  lemma StepRefines(g: Grants, p: PairGrants, op: Op)
    requires Stands(g, p) && NoNul(op.action)
    ensures Step(g, op).1 == PairStep(p, op).1
    ensures Stands(Step(g, op).0, PairStep(p, op).0)
  {
    forall d, a | NoNul(a)
      ensures (GrantKey(d, a) in Step(g, op).0 <==> (d, a) in PairStep(p, op).0)
           && ((d, a) in PairStep(p, op).0 ==> Step(g, op).0[GrantKey(d, a)] == PairStep(p, op).0[(d, a)])
    {
      GrantKeyInjective(d, a, op.dev, op.action);
    }
  }

  /** Over every run of grants and uses, the text-keyed map answers exactly as a map
      keyed by device and action. */
  lemma {:induction false} RunRefines(g: Grants, p: PairGrants, ops: seq<Op>)
    requires Stands(g, p) && forall i :: 0 <= i < |ops| ==> NoNul(ops[i].action)
    ensures Answers(g, ops) == PairAnswers(p, ops)
    decreases |ops|
  {
    if ops != [] {
      StepRefines(g, p, ops[0]);
      RunRefines(Step(g, ops[0]).0, PairStep(p, ops[0]).0, ops[1..]);
    }
  }
}
