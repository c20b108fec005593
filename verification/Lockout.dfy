/** Lockout after failed attempts, per IP and per account. Times are nanoseconds on
    a clock that does not run backwards. */
module Lockout {
  import opened Wrappers
  import opened Arithmetic

  const FAILURE_THRESHOLD: nat := 5
  const MINUTE: nat := 60_000_000_000
  const BASE_LOCKOUT: nat := MINUTE
  const MAX_LOCKOUT: nat := 60 * MINUTE

  function Power2(n: nat): (p: nat)
    ensures p >= 1
  {
    if n == 0 then 1 else 2 * Power2(n - 1)
  }

  /** The lockout that follows the n-th run of failures: min(2^(n-1), 60) minutes. */
  function LockoutTime(n: nat): nat
    requires n >= 1
  {
    if Power2(n - 1) <= 60 then Power2(n - 1) * MINUTE else MAX_LOCKOUT
  }

  lemma {:induction false} Power2Grows(a: nat, b: nat)
    requires a <= b
    ensures Power2(a) <= Power2(b)
    decreases b
  {
    if a < b {
      Power2Grows(a, b - 1);
    }
  }

  lemma PowersMissSixty(n: nat)
    ensures Power2(n) <= 32 || Power2(n) >= 64
  {
    assert Power2(5) == 32 && Power2(6) == 64;
    if n <= 5 {
      Power2Grows(n, 5);
    } else {
      Power2Grows(6, n);
    }
  }

  lemma LockoutTimeGrows(a: nat, b: nat)
    requires 1 <= a <= b
    ensures MINUTE <= LockoutTime(a) <= LockoutTime(b) <= MAX_LOCKOUT
  {
    Power2Grows(a - 1, b - 1);
  }

  // ---- The state of one key --------------------------------------------------------

  datatype LockState = LockState(failures: nat, lockCount: nat, lockedUntil: Option<int>)

  /** A key nobody failed for, or one that was cleared. */
  const FRESH: LockState := LockState(0, 0, None)

  predicate Locked(s: LockState, now: int) {
    s.lockedUntil.Some? && now < s.lockedUntil.value
  }

  /** recordFailure on one key. */
  function Failed(s: LockState, now: int): LockState {
    if s.failures + 1 < FAILURE_THRESHOLD then s.(failures := s.failures + 1)
    else LockState(0, s.lockCount + 1, Some(now + LockoutTime(s.lockCount + 1)))
  }

  // ---- The limiter ---------------------------------------------------------------------

  datatype Side = Ip | Account

  datatype Limiter = Limiter(byIP: map<string, LockState>, byAcct: map<string, LockState>)

  function Table(l: Limiter, side: Side): map<string, LockState> {
    if side == Ip then l.byIP else l.byAcct
  }

  function Of(l: Limiter, side: Side, key: string): LockState {
    if key in Table(l, side) then Table(l, side)[key] else FRESH
  }

  predicate Allowed(l: Limiter, ip: string, account: string, now: int) {
    !Locked(Of(l, Ip, ip), now) && !Locked(Of(l, Account, account), now)
  }

  function RecordFailure(l: Limiter, ip: string, account: string, now: int): Limiter {
    Limiter(l.byIP[ip := Failed(Of(l, Ip, ip), now)], l.byAcct[account := Failed(Of(l, Account, account), now)])
  }

  function RecordSuccess(l: Limiter, ip: string, account: string): Limiter {
    Limiter(l.byIP - {ip}, l.byAcct - {account})
  }

  datatype Verdict = Refused | Rejected | Accepted

  /** One call of LimitedVerifier.Verify: when the lockout was checked, when the
      outcome was recorded, and what the wrapped verifier says. */
  datatype Attempt = Attempt(ip: string, account: string, checked: int, recorded: int, good: bool)

  function Verify(l: Limiter, a: Attempt): (Limiter, Verdict) {
    if !Allowed(l, a.ip, a.account, a.checked) then (l, Refused)
    else if a.good then (RecordSuccess(l, a.ip, a.account), Accepted)
    else (RecordFailure(l, a.ip, a.account, a.recorded), Rejected)
  }

  // ---- Runs of attempts -------------------------------------------------------------------

  /** One attempt after the other on a clock that does not run backwards. */
  ghost predicate Sequential(run: seq<Attempt>) {
    && (forall i :: 0 <= i < |run| ==> run[i].checked <= run[i].recorded)
    && (forall i, j :: 0 <= i < j < |run| ==> run[i].recorded <= run[j].checked)
  }

  function Run(l: Limiter, run: seq<Attempt>): Limiter {
    if run == [] then l else Verify(Run(l, run[..|run| - 1]), run[|run| - 1]).0
  }

  function KeyOf(a: Attempt, side: Side): string {
    if side == Ip then a.ip else a.account
  }

  /** The verdict on the last attempt of a run. */
  function LastVerdict(l: Limiter, run: seq<Attempt>): Verdict
    requires run != []
  {
    Verify(Run(l, run[..|run| - 1]), run[|run| - 1]).1
  }

  /** Does the last attempt count as a failed check of the key? */
  predicate LastIsGuess(l: Limiter, run: seq<Attempt>, side: Side, key: string)
    requires run != []
  {
    LastVerdict(l, run) == Rejected && KeyOf(run[|run| - 1], side) == key
  }

  /** How many failed checks of the key a run contains. */
  function Guesses(l: Limiter, run: seq<Attempt>, side: Side, key: string): nat {
    if run == [] then 0
    else Guesses(l, run[..|run| - 1], side, key) + if LastIsGuess(l, run, side, key) then 1 else 0
  }

  /** When the first and the last of them were recorded. */
  function FirstGuess(l: Limiter, run: seq<Attempt>, side: Side, key: string): Option<int> {
    if run == [] then None
    else
      var before := FirstGuess(l, run[..|run| - 1], side, key);
      if before.None? && LastIsGuess(l, run, side, key) then Some(run[|run| - 1].recorded) else before
  }

  function LastGuess(l: Limiter, run: seq<Attempt>, side: Side, key: string): Option<int> {
    if run == [] then None
    else if LastIsGuess(l, run, side, key) then Some(run[|run| - 1].recorded)
    else LastGuess(l, run[..|run| - 1], side, key)
  }

  /** No success in the run clears the key. */
  predicate NeverCleared(l: Limiter, run: seq<Attempt>, side: Side, key: string) {
    run != [] ==>
      && NeverCleared(l, run[..|run| - 1], side, key)
      && !(LastVerdict(l, run) == Accepted && KeyOf(run[|run| - 1], side) == key)
  }

  /** The lockouts 1..k, one after the other. */
  function MinTime(k: nat): nat {
    if k == 0 then 0 else MinTime(k - 1) + LockoutTime(k)
  }

  lemma {:induction false} MinTimeGrows(a: nat, b: nat)
    requires a <= b
    ensures MinTime(a) <= MinTime(b)
    decreases b
  {
    if a < b {
      MinTimeGrows(a, b - 1);
    }
  }

  lemma KeyStep(l: Limiter, a: Attempt, side: Side, key: string)
    ensures var (l', v) := Verify(l, a);
      && (KeyOf(a, side) != key || v == Refused ==> Of(l', side, key) == Of(l, side, key))
      && (KeyOf(a, side) == key && v == Rejected ==>
            !Locked(Of(l, side, key), a.checked) && Of(l', side, key) == Failed(Of(l, side, key), a.recorded))
      && (KeyOf(a, side) == key && v == Accepted ==> Of(l', side, key) == FRESH)
  {
  }

  /** What a run without a success on the key has led to, for the state `s` of the
      key, which was `s0` before. */
  ghost predicate Progress(s0: LockState, s: LockState, guesses: nat, first: Option<int>, last: Option<int>) {
    && s.failures < FAILURE_THRESHOLD
    && s.failures + 5 * s.lockCount == s0.failures + 5 * s0.lockCount + guesses
    && s.lockCount >= s0.lockCount
    && (guesses > 0 <==> first.Some?) && (guesses > 0 <==> last.Some?)
    && (s.lockCount > s0.lockCount ==>
          && first.Some? && s.lockedUntil.Some?
          && s.lockedUntil.value >= first.value + MinTime(s.lockCount - s0.lockCount))
    && (guesses > 0 ==> last.value - first.value >= MinTime((guesses - 1) / 5))
  }

  lemma GuessProgress(s0: LockState, s: LockState, guesses: nat, first: Option<int>, last: Option<int>,
                      checked: int, recorded: int)
    requires s0.failures < FAILURE_THRESHOLD && Progress(s0, s, guesses, first, last)
    requires !Locked(s, checked) && checked <= recorded
    requires first.Some? ==> first.value <= recorded
    ensures var first' := if first.None? then Some(recorded) else first;
      Progress(s0, Failed(s, recorded), guesses + 1, first', Some(recorded))
  {
    var j := s.lockCount - s0.lockCount;
    var start := if first.None? then recorded else first.value;
    assert guesses / 5 <= j;
    MinTimeGrows(guesses / 5, j);
    assert MinTime(0) == 0;
    assert recorded >= start + MinTime(j);
    LockoutTimeGrows(j + 1, s.lockCount + 1);
    assert MinTime(j + 1) == MinTime(j) + LockoutTime(j + 1);
  }

  lemma {:induction false} RunProgress(l: Limiter, run: seq<Attempt>, side: Side, key: string)
    requires Sequential(run) && NeverCleared(l, run, side, key)
    requires Of(l, side, key).failures < FAILURE_THRESHOLD
    ensures Progress(Of(l, side, key), Of(Run(l, run), side, key), Guesses(l, run, side, key),
                     FirstGuess(l, run, side, key), LastGuess(l, run, side, key))
    ensures FirstGuess(l, run, side, key).Some? ==>
              run != [] && FirstGuess(l, run, side, key).value <= run[|run| - 1].recorded
    decreases |run|
  {
    hide Verify, Of, Failed, Locked, MinTime, LockoutTime;
    if run != [] {
      var before, a := run[..|run| - 1], run[|run| - 1];
      RunProgress(l, before, side, key);
      KeyStep(Run(l, before), a, side, key);
      if LastIsGuess(l, run, side, key) {
        GuessProgress(Of(l, side, key), Of(Run(l, before), side, key), Guesses(l, before, side, key),
                      FirstGuess(l, before, side, key), LastGuess(l, before, side, key), a.checked, a.recorded);
      }
    }
  }

  /** The guess bound. In every sequential run, from any state, F failed checks of
      one key with no success clearing it span at least the lockouts
      1..floor((F-1)/5): the sum of min(2^(i-1), 60) minutes. */
  lemma GuessBound(l: Limiter, run: seq<Attempt>, side: Side, key: string)
    requires Sequential(run) && NeverCleared(l, run, side, key)
    requires Of(l, side, key).failures < FAILURE_THRESHOLD
    requires Guesses(l, run, side, key) > 0
    ensures FirstGuess(l, run, side, key).Some? && LastGuess(l, run, side, key).Some?
    ensures LastGuess(l, run, side, key).value - FirstGuess(l, run, side, key).value
         >= MinTime((Guesses(l, run, side, key) - 1) / 5)
  {
    RunProgress(l, run, side, key);
  }

  lemma {:induction false} MinTimeValue(k: nat)
    requires k >= 6
    ensures MinTime(k) == (63 + 60 * (k - 6)) * MINUTE
    decreases k
  {
    if k == 6 {
      assert Power2(1) == 2 && Power2(2) == 4 && Power2(3) == 8 && Power2(4) == 16 && Power2(5) == 32;
      assert LockoutTime(1) == MINUTE && LockoutTime(2) == 2 * MINUTE && LockoutTime(3) == 4 * MINUTE;
      assert LockoutTime(4) == 8 * MINUTE && LockoutTime(5) == 16 * MINUTE && LockoutTime(6) == 32 * MINUTE;
      assert MinTime(3) == 7 * MINUTE;
      assert MinTime(6) == MinTime(5) + LockoutTime(6) && MinTime(5) == MinTime(4) + LockoutTime(5);
    } else {
      MinTimeValue(k - 1);
      Power2Grows(6, k - 1);
      assert Power2(6) == 64;
    }
  }

  /** Within a span of T >= 63 minutes, at most 35 + 5 * floor((T - 63) / 60) failed
      checks of one key are possible. */
  lemma GuessesWithin(l: Limiter, run: seq<Attempt>, side: Side, key: string, span: nat)
    requires Sequential(run) && NeverCleared(l, run, side, key)
    requires Of(l, side, key).failures < FAILURE_THRESHOLD
    requires span >= 63 * MINUTE
    requires Guesses(l, run, side, key) > 0 ==>
      FirstGuess(l, run, side, key).Some? && LastGuess(l, run, side, key).Some?
      && LastGuess(l, run, side, key).value - FirstGuess(l, run, side, key).value <= span
    ensures Guesses(l, run, side, key) <= 35 + 5 * ((span - 63 * MINUTE) / (60 * MINUTE))
  {
    var guesses := Guesses(l, run, side, key);
    if guesses > 0 {
      GuessBound(l, run, side, key);
      hide Guesses, FirstGuess, LastGuess;
      MinTimeWithin((guesses - 1) / 5, span);
    }
  }

  lemma MinTimeWithin(k: nat, span: nat)
    requires span >= 63 * MINUTE && MinTime(k) <= span
    ensures k <= 6 + (span - 63 * MINUTE) / (60 * MINUTE)
  {
    if k >= 6 {
      MinTimeValue(k);
      hide MinTime;
      QuotientAtLeast(span - 63 * MINUTE, 60 * MINUTE, k - 6);
    }
  }

  lemma QuotientAtLeast(a: nat, d: nat, k: nat)
    requires d > 0 && k * d <= a
    ensures k <= a / d
  {
    assert a == a / d * d + a % d;
    if a / d + 1 <= k {
      MulMonotone(a / d + 1, k, d);
    }
  }

  // ---- Without the gate ----------------------------------------------------------------------

  /** Any interleaving of recorded outcomes, gated by Allow or not. */
  datatype Outcome = Fails(ip: string, account: string, at: int) | Succeeds(ip: string, account: string)

  function Record(l: Limiter, o: Outcome): Limiter {
    match o
    case Fails(ip, account, at) => RecordFailure(l, ip, account, at)
    case Succeeds(ip, account) => RecordSuccess(l, ip, account)
  }

  function RecordAll(l: Limiter, os: seq<Outcome>): Limiter
    decreases |os|
  {
    if os == [] then l else RecordAll(Record(l, os[0]), os[1..])
  }

  ghost predicate InOrder(os: seq<Outcome>, from: int) {
    && (forall i :: 0 <= i < |os| && os[i].Fails? ==> from <= os[i].at)
    && (forall i, j :: 0 <= i < j < |os| && os[i].Fails? && os[j].Fails? ==> os[i].at <= os[j].at)
  }

  /** A key that got locked is locked for at most its current lockout from now. */
  ghost predicate SaneKey(s: LockState, now: int) {
    && s.failures < FAILURE_THRESHOLD
    && (s.lockedUntil.Some? ==> s.lockCount >= 1 && s.lockedUntil.value <= now + LockoutTime(s.lockCount))
  }

  ghost predicate Sane(l: Limiter, now: int) {
    forall side, key :: SaneKey(Of(l, side, key), now)
  }

  /** `b` is locked at least as long as `a`. */
  predicate NotEarlier(a: LockState, b: LockState) {
    a.lockedUntil.Some? ==> b.lockedUntil.Some? && a.lockedUntil.value <= b.lockedUntil.value
  }

  predicate Clears(o: Outcome, side: Side, key: string) {
    o.Succeeds? && (if side == Ip then o.ip else o.account) == key
  }

  lemma RecordKeeps(l: Limiter, o: Outcome, now: int, side: Side, key: string)
    requires Sane(l, now) && (o.Fails? ==> now <= o.at)
    ensures SaneKey(Of(Record(l, o), side, key), if o.Fails? then o.at else now)
    ensures !Clears(o, side, key) ==> NotEarlier(Of(l, side, key), Of(Record(l, o), side, key))
  {
    hide Power2;
    var s := Of(l, side, key);
    assert SaneKey(s, now);
    if s.lockCount >= 1 {
      LockoutTimeGrows(s.lockCount, s.lockCount + 1);
    }
  }

  /** In every run of recorded outcomes, whether or not anybody asked Allow first, a
      key's failure count stays below five, and unless a success clears the key its
      lockout never moves to an earlier time. */
  lemma {:induction false} RecordAllKeeps(l: Limiter, os: seq<Outcome>, now: int, side: Side, key: string)
    requires Sane(l, now) && InOrder(os, now)
    ensures Of(RecordAll(l, os), side, key).failures < FAILURE_THRESHOLD
    ensures (forall i :: 0 <= i < |os| ==> !Clears(os[i], side, key)) ==>
              NotEarlier(Of(l, side, key), Of(RecordAll(l, os), side, key))
    decreases |os|
  {
    assert SaneKey(Of(l, side, key), now);
    if os != [] {
      var o := os[0];
      var later := if o.Fails? then o.at else now;
      forall sd, k ensures SaneKey(Of(Record(l, o), sd, k), later) {
        RecordKeeps(l, o, now, sd, k);
      }
      RecordKeeps(l, o, now, side, key);
      RecordAllKeeps(Record(l, o), os[1..], later, side, key);
    }
  }

  /** From a limiter that has recorded nothing. */
  lemma FromTheStart(os: seq<Outcome>, now: int, side: Side, key: string)
    requires InOrder(os, now)
    ensures Of(RecordAll(Limiter(map[], map[]), os), side, key).failures < FAILURE_THRESHOLD
  {
    assert Sane(Limiter(map[], map[]), now);
    RecordAllKeeps(Limiter(map[], map[]), os, now, side, key);
  }

  // ---- When exactly a key is locked ------------------------------------------------------------

  predicate FailsKey(o: Outcome, side: Side, key: string) {
    o.Fails? && (if side == Ip then o.ip else o.account) == key
  }

  /** When the key failed since it was last cleared. */
  function FailuresOf(os: seq<Outcome>, side: Side, key: string): seq<int> {
    if os == [] then []
    else
      var before, o := os[..|os| - 1], os[|os| - 1];
      if Clears(o, side, key) then []
      else FailuresOf(before, side, key) + if FailsKey(o, side, key) then [o.at] else []
  }

  /** What n failures come to: n mod 5 since the last lockout, and after n div 5 lockouts
      the last of them running from the failure that set it. */
  ghost predicate Stands(s: LockState, times: seq<int>) {
    var n := |times|;
    && s.failures == n % 5 && s.lockCount == n / 5
    && s.lockedUntil == if n < 5 then None else Some(times[n / 5 * 5 - 1] + LockoutTime(n / 5))
  }

  lemma OneMore(s: LockState, times: seq<int>, at: int)
    requires Stands(s, times)
    ensures Stands(Failed(s, at), times + [at])
  {
    var n := |times|;
    hide LockoutTime;
    if s.failures + 1 < FAILURE_THRESHOLD {
      assert (n + 1) / 5 == n / 5 && (n + 1) % 5 == n % 5 + 1;
      assert n >= 5 ==> (times + [at])[n / 5 * 5 - 1] == times[n / 5 * 5 - 1];
    } else {
      assert (n + 1) / 5 == n / 5 + 1 && (n + 1) / 5 * 5 == n + 1;
      assert (times + [at])[n] == at;
    }
  }

  lemma {:induction false} RecordLast(l: Limiter, os: seq<Outcome>, o: Outcome)
    ensures RecordAll(l, os + [o]) == Record(RecordAll(l, os), o)
    decreases |os|
  {
    if os == [] {
      assert ([] + [o])[1..] == [];
    } else {
      assert (os + [o])[1..] == os[1..] + [o];
      RecordLast(Record(l, os[0]), os[1..], o);
    }
    hide Record;
  }

  lemma {:induction false} StandsAlways(os: seq<Outcome>, side: Side, key: string)
    ensures Stands(Of(RecordAll(Limiter(map[], map[]), os), side, key), FailuresOf(os, side, key))
    decreases |os|
  {
    var none := Limiter(map[], map[]);
    if os != [] {
      var before, o := os[..|os| - 1], os[|os| - 1];
      assert os == before + [o];
      StandsAlways(before, side, key);
      RecordLast(none, before, o);
      var s, times := Of(RecordAll(none, before), side, key), FailuresOf(before, side, key);
      if FailsKey(o, side, key) {
        OneMore(s, times, o.at);
      } else if !Clears(o, side, key) {
        assert times + [] == times;
      }
      hide Stands, RecordAll, Failed;
    }
  }

  /** A key is locked exactly while the lockout lasts that its last full five failures
      since the last success have set; the k-th lasts min(2^(k-1), 60) minutes. */
  lemma LockedExactly(os: seq<Outcome>, side: Side, key: string, now: int)
    ensures var times := FailuresOf(os, side, key);
      var k := |times| / 5;
      Locked(Of(RecordAll(Limiter(map[], map[]), os), side, key), now)
      <==> k >= 1 && now < times[k * 5 - 1] + LockoutTime(k)
  {
    StandsAlways(os, side, key);
    hide RecordAll, Of, FailuresOf, LockoutTime;
  }

  lemma {:induction false} FailuresFrom(os: seq<Outcome>, side: Side, key: string, i: nat)
    requires i < |FailuresOf(os, side, key)|
    ensures exists j :: 0 <= j < |os| && FailsKey(os[j], side, key) && os[j].at == FailuresOf(os, side, key)[i]
    decreases |os|
  {
    var before, o := os[..|os| - 1], os[|os| - 1];
    if i < |FailuresOf(before, side, key)| {
      FailuresFrom(before, side, key, i);
      var j :| 0 <= j < |before| && FailsKey(before[j], side, key) && before[j].at == FailuresOf(before, side, key)[i];
      assert os[j] == before[j];
    } else {
      assert FailsKey(os[|os| - 1], side, key);
    }
  }

  lemma UnlockedAgain(os: seq<Outcome>, side: Side, key: string, now: int)
    requires forall i :: 0 <= i < |os| && os[i].Fails? ==> os[i].at + MAX_LOCKOUT <= now
    ensures !Locked(Of(RecordAll(Limiter(map[], map[]), os), side, key), now)
  {
    hide RecordAll, Of, FailuresOf, LockoutTime, Locked;
    var times := FailuresOf(os, side, key);
    var k := |times| / 5;
    LockedExactly(os, side, key, now);
    if k >= 1 {
      FailuresFrom(os, side, key, k * 5 - 1);
      LockoutTimeGrows(k, k);
    }
  }

  /** No lockout is for good: an hour after its last failure everybody is allowed. */
  lemma AllowedAgain(os: seq<Outcome>, ip: string, account: string, now: int)
    requires forall i :: 0 <= i < |os| && os[i].Fails? ==> os[i].at + MAX_LOCKOUT <= now
    ensures Allowed(RecordAll(Limiter(map[], map[]), os), ip, account, now)
  {
    UnlockedAgain(os, Ip, ip, now);
    UnlockedAgain(os, Account, account, now);
    hide RecordAll, Of;
  }
}
