/** Guessing through the pairing handlers. They ask Allow first and count the outcome
    later, in another section, so several requests may have been let through before any
    of them is counted. */
module GuessRuns {
  import opened Wrappers
  import opened Arithmetic
  import opened Lockout

  /** What a handler does with the limiter. Leave: an outcome that is not counted. */
  datatype Event =
    | Check(n: nat, ip: string, at: int)
    | Fail(n: nat, at: int)
    | Succeed(n: nat, at: int)
    | Leave(n: nat, at: int)

  /** The limiter, and the requests let through and not yet counted, with their
      addresses. The account is always the owner's. */
  datatype Gate = Gate(limiter: Limiter, flight: map<nat, string>)

  function Step(email: string, g: Gate, e: Event): Gate {
    match e
    case Check(n, ip, at) =>
      if n in g.flight || !Allowed(g.limiter, ip, email, at) then g else g.(flight := g.flight[n := ip])
    case Fail(n, at) =>
      if n !in g.flight then g
      else Gate(RecordFailure(g.limiter, g.flight[n], email, at), g.flight - {n})
    case Succeed(n, _) =>
      if n !in g.flight then g
      else Gate(RecordSuccess(g.limiter, g.flight[n], email), g.flight - {n})
    case Leave(n, _) => g.(flight := g.flight - {n})
  }

  function Run(email: string, g: Gate, es: seq<Event>): Gate
    decreases |es|
  {
    if es == [] then g else Run(email, Step(email, g, es[0]), es[1..])
  }

  predicate Hits(email: string, ip: string, side: Side, key: string) {
    (if side == Ip then ip else email) == key
  }

  /** The requests of a key that are in flight. */
  function Holding(email: string, g: Gate, side: Side, key: string): set<nat> {
    set n | n in g.flight && Hits(email, g.flight[n], side, key)
  }

  predicate Counts(email: string, g: Gate, e: Event, side: Side, key: string) {
    e.Fail? && e.n in g.flight && Hits(email, g.flight[e.n], side, key)
  }

  /** How many failed checks of a key a run counts, and when the first and the last. */
  function Fails(email: string, g: Gate, es: seq<Event>, side: Side, key: string): nat
    decreases |es|
  {
    if es == [] then 0
    else (if Counts(email, g, es[0], side, key) then 1 else 0) + Fails(email, Step(email, g, es[0]), es[1..], side, key)
  }

  function FirstFail(email: string, g: Gate, es: seq<Event>, side: Side, key: string): Option<int>
    decreases |es|
  {
    if es == [] then None
    else if Counts(email, g, es[0], side, key) then Some(es[0].at)
    else FirstFail(email, Step(email, g, es[0]), es[1..], side, key)
  }

  function LastFail(email: string, g: Gate, es: seq<Event>, side: Side, key: string, last: int): int
    decreases |es|
  {
    if es == [] then last
    else
      LastFail(email, Step(email, g, es[0]), es[1..], side, key,
               if Counts(email, g, es[0], side, key) then es[0].at else last)
  }

  predicate Orderly(es: seq<Event>, now: int)
    decreases |es|
  {
    es == [] || (now <= es[0].at && Orderly(es[1..], es[0].at))
  }

  /** At most `c` requests of the key are ever in flight, and no success clears it. */
  ghost predicate Calm(email: string, g: Gate, es: seq<Event>, c: nat, side: Side, key: string)
    decreases |es|
  {
    && |Holding(email, g, side, key)| <= c
    && (es != [] ==>
          && !(es[0].Succeed? && es[0].n in g.flight && Hits(email, g.flight[es[0].n], side, key))
          && Calm(email, Step(email, g, es[0]), es[1..], c, side, key))
  }

  /** Every m-th lockout from the L-th on, k of them. */
  function Spread(L: nat, m: nat, k: nat): nat
    requires L >= 1
    decreases k
  {
    if k == 0 then 0 else LockoutTime(L) + Spread(L + m, m, k - 1)
  }

  lemma {:induction false} SpreadEnough(L: nat, m: nat, j: nat, k: nat)
    requires L >= j + 1 && m >= 1
    ensures Spread(L, m, k) + MinTime(j) >= MinTime(j + k)
    decreases k
  {
    hide LockoutTime;
    if k > 0 {
      LockoutTimeGrows(j + 1, L);
      SpreadEnough(L + m, m, j + 1, k - 1);
    }
  }

  // ---- One step for one key ------------------------------------------------------------------

  lemma LastFailGrows(email: string, g: Gate, es: seq<Event>, side: Side, key: string, last: int, now: int)
    requires Orderly(es, now) && last <= now
    ensures LastFail(email, g, es, side, key, last) >= last
    decreases |es|
  {
    hide Counts, Step;
    if es != [] {
      LastFailGrows(email, Step(email, g, es[0]), es[1..], side, key,
                    if Counts(email, g, es[0], side, key) then es[0].at else last, es[0].at);
    }
  }

  /** A counted failure takes one request out of flight. */
  lemma CountedStep(email: string, g: Gate, e: Event, side: Side, key: string)
    requires Counts(email, g, e, side, key)
    ensures Of(Step(email, g, e).limiter, side, key) == Failed(Of(g.limiter, side, key), e.at)
    ensures |Holding(email, Step(email, g, e), side, key)| + 1 == |Holding(email, g, side, key)|
  {
    assert Holding(email, Step(email, g, e), side, key) == Holding(email, g, side, key) - {e.n};
    hide Failed;
  }

  /** Anything else but a success of the key leaves the key alone, and lets a request of
      it in only when it is not locked. */
  lemma OtherStep(email: string, g: Gate, e: Event, side: Side, key: string)
    requires !Counts(email, g, e, side, key)
    requires !(e.Succeed? && e.n in g.flight && Hits(email, g.flight[e.n], side, key))
    ensures Of(Step(email, g, e).limiter, side, key) == Of(g.limiter, side, key)
    ensures Locked(Of(g.limiter, side, key), e.at) ==>
      |Holding(email, Step(email, g, e), side, key)| <= |Holding(email, g, side, key)|
  {
    var before, after := Holding(email, g, side, key), Holding(email, Step(email, g, e), side, key);
    if Locked(Of(g.limiter, side, key), e.at) {
      assert after <= before;
      SubsetSize(after, before);
    }
    hide Failed;
  }

  lemma SubsetSize(a: set<nat>, b: set<nat>)
    requires a <= b
    ensures |a| <= |b|
  {
    assert b == a + (b - a);
  }

  // ---- From a lockout on ---------------------------------------------------------------------------

  /** Since the L-th lockout at T, `n` failures were counted, the last at `last`. While it
      lasts, only what was in flight then can still be counted. */
  ghost predicate Since(s: LockState, held: nat, c: nat, m: nat, L: nat, T: int, n: nat, now: int, last: int) {
    && L >= 1 && m >= 1 && 1 <= c <= 5 * m && n < 5 * m && T <= now
    && s.failures < FAILURE_THRESHOLD && s.failures + 5 * s.lockCount == 5 * L + n
    && s.lockedUntil.Some? && s.lockedUntil.value >= T + LockoutTime(L)
    && (now >= T + LockoutTime(L) || n + held < c)
    && (n >= c ==> last >= T + LockoutTime(L)) && last <= now
  }

  /** One more failure. */
  lemma OneMore(s: LockState, held: nat, c: nat, m: nat, L: nat, T: int, n: nat, now: int, last: int, at: int)
    requires Since(s, held + 1, c, m, L, T, n, now, last) && now <= at && held < c
    ensures n + 1 < 5 * m ==> Since(Failed(s, at), held, c, m, L, T, n + 1, at, at)
    ensures n + 1 == 5 * m ==> at >= T + LockoutTime(L) && Since(Failed(s, at), held, c, m, L + m, at, 0, at, at)
  {
    LockoutTimeGrows(L, s.lockCount + 1);
    if n + 1 == 5 * m {
      assert Failed(s, at).failures == 0 && Failed(s, at).lockCount == L + m;
    }
    hide LockoutTime;
  }

  /** The failures after a lockout that fill k lockouts, m at a time. */
  function Needed(c: nat, m: nat, k: nat): nat
    requires k >= 1
    decreases k
  {
    if k == 1 then c else 5 * m + Needed(c, m, k - 1)
  }

  lemma {:induction false} NeededIs(c: nat, m: nat, k: nat)
    requires k >= 1
    ensures Needed(c, m, k) == 5 * m * (k - 1) + c
    decreases k
  {
    if k > 1 {
      NeededIs(c, m, k - 1);
    }
  }

  lemma {:induction false} Span(email: string, g: Gate, es: seq<Event>, side: Side, key: string, c: nat, m: nat, k: nat,
                               L: nat, T: int, n: nat, now: int, last: int)
    requires k >= 1 && Orderly(es, now) && Calm(email, g, es, c, side, key)
    requires Since(Of(g.limiter, side, key), |Holding(email, g, side, key)|, c, m, L, T, n, now, last)
    requires n + Fails(email, g, es, side, key) >= Needed(c, m, k)
    ensures LastFail(email, g, es, side, key, last) >= T + Spread(L, m, k)
    decreases |es|
  {
    hide Step, Counts, Of, Failed, LockoutTime, Holding, Hits, Locked;
    var U := T + LockoutTime(L);
    if es == [] {
      assert k == 1;
      assert Spread(L + m, m, 0) == 0;
    } else {
      var e, rest := es[0], es[1..];
      var g' := Step(email, g, e);
      var s := Of(g.limiter, side, key);
      if Counts(email, g, e, side, key) {
        CountedStep(email, g, e, side, key);
        OneMore(s, |Holding(email, g', side, key)|, c, m, L, T, n, now, last, e.at);
        if n + 1 < 5 * m {
          Span(email, g', rest, side, key, c, m, k, L, T, n + 1, e.at, e.at);
        } else if k == 1 {
          assert Spread(L + m, m, 0) == 0;
          LastFailGrows(email, g', rest, side, key, e.at, e.at);
        } else {
          Span(email, g', rest, side, key, c, m, k - 1, L + m, e.at, 0, e.at, e.at);
        }
      } else {
        OtherStep(email, g, e, side, key);
        StillSince(s, |Holding(email, g, side, key)|, |Holding(email, g', side, key)|, c, m, L, T, n, now, last, e.at);
        Span(email, g', rest, side, key, c, m, k, L, T, n, e.at, last);
      }
    }
  }

  lemma StillSince(s: LockState, held: nat, held': nat, c: nat, m: nat, L: nat, T: int, n: nat, now: int, last: int, at: int)
    requires Since(s, held, c, m, L, T, n, now, last) && now <= at
    requires Locked(s, at) ==> held' <= held
    ensures Since(s, held', c, m, L, T, n, at, last)
  {
    hide LockoutTime;
  }

  // ---- From the first failure on -----------------------------------------------------------------------

  /** From a failure at `first` on, to the next lockout and from there. */
  lemma {:induction false} Begin(email: string, g: Gate, es: seq<Event>, side: Side, key: string, c: nat, m: nat, k: nat,
                                first: int, now: int, last: int)
    requires k >= 1 && m >= 1 && 1 <= c <= 5 * m && Orderly(es, now) && Calm(email, g, es, c, side, key)
    requires first <= now && Of(g.limiter, side, key).failures < FAILURE_THRESHOLD
    requires Fails(email, g, es, side, key) + Of(g.limiter, side, key).failures >= 5 + Needed(c, m, k)
    ensures LastFail(email, g, es, side, key, last) >= first + Spread(Of(g.limiter, side, key).lockCount + 1, m, k)
    decreases |es|
  {
    hide Step, Counts, Of, LockoutTime, Holding, Hits, Locked;
    if es != [] {
      var e, rest := es[0], es[1..];
      var g' := Step(email, g, e);
      var s := Of(g.limiter, side, key);
      if Counts(email, g, e, side, key) {
        CountedStep(email, g, e, side, key);
        if s.failures + 1 < FAILURE_THRESHOLD {
          Begin(email, g', rest, side, key, c, m, k, first, e.at, e.at);
        } else {
          LockoutTimeGrows(1, s.lockCount + 1);
          Span(email, g', rest, side, key, c, m, k, s.lockCount + 1, e.at, 0, e.at, e.at);
        }
      } else {
        OtherStep(email, g, e, side, key);
        Begin(email, g', rest, side, key, c, m, k, first, e.at, last);
      }
    }
  }

  /** The guess bound of the handlers. In every run with at most c requests of a key in
      flight at a time and no success of it, and with 5m >= c: 5 + 5m(k-1) + c failed
      checks of the key span at least the lockouts 1..k. For one request at a time that
      is the sequential bound; up to five at a time cost four more guesses and no more. */
  lemma OwnerGuessBound(email: string, g: Gate, es: seq<Event>, side: Side, key: string, c: nat, m: nat, k: nat,
                        now: int, last: int)
    requires k >= 1 && m >= 1 && 1 <= c <= 5 * m && Orderly(es, now) && Calm(email, g, es, c, side, key)
    requires Of(g.limiter, side, key).failures < FAILURE_THRESHOLD
    requires Fails(email, g, es, side, key) >= 5 + 5 * m * (k - 1) + c
    ensures FirstFail(email, g, es, side, key).Some?
    ensures LastFail(email, g, es, side, key, last) - FirstFail(email, g, es, side, key).value >= MinTime(k)
  {
    NeededIs(c, m, k);
    hide *;
    FromFirst(email, g, es, side, key, c, m, k, now, last);
  }

  lemma {:induction false} FromFirst(email: string, g: Gate, es: seq<Event>, side: Side, key: string, c: nat, m: nat,
                                    k: nat, now: int, last: int)
    requires k >= 1 && m >= 1 && 1 <= c <= 5 * m && Orderly(es, now) && Calm(email, g, es, c, side, key)
    requires Of(g.limiter, side, key).failures < FAILURE_THRESHOLD
    requires Fails(email, g, es, side, key) >= 5 + Needed(c, m, k)
    ensures FirstFail(email, g, es, side, key).Some?
    ensures LastFail(email, g, es, side, key, last) - FirstFail(email, g, es, side, key).value >= MinTime(k)
    decreases |es|
  {
    hide Step, Counts, Of, LockoutTime, Holding, Hits, Locked;
    if es != [] {
      var e, rest := es[0], es[1..];
      var g' := Step(email, g, e);
      var s := Of(g.limiter, side, key);
      if Counts(email, g, e, side, key) {
        CountedStep(email, g, e, side, key);
        assert MinTime(0) == 0;
        if s.failures + 1 < FAILURE_THRESHOLD {
          Begin(email, g', rest, side, key, c, m, k, e.at, e.at, e.at);
          SpreadEnough(s.lockCount + 1, m, 0, k);
        } else {
          LockoutTimeGrows(1, s.lockCount + 1);
          Span(email, g', rest, side, key, c, m, k, s.lockCount + 1, e.at, 0, e.at, e.at);
          SpreadEnough(s.lockCount + 1, m, 0, k);
        }
      } else {
        OtherStep(email, g, e, side, key);
        FromFirst(email, g', rest, side, key, c, m, k, e.at, last);
      }
    }
  }

  // ---- With a success there is no bound ---------------------------------------------------------------------

  function Guess(ip: string): seq<Event> {
    [Check(0, ip, 0), Fail(0, 0)]
  }

  function Reset(ip: string): seq<Event> {
    [Check(0, ip, 0), Succeed(0, 0)]
  }

  /** The rest of a round after `j` guesses: guesses up to the fourth, then one success of
      another factor. */
  function Round(ip: string, j: nat): seq<Event>
    requires j <= 4
    decreases 4 - j
  {
    if j == 4 then Reset(ip) else Guess(ip) + Round(ip, j + 1)
  }

  function Rounds(ip: string, k: nat): seq<Event> {
    if k == 0 then [] else Round(ip, 0) + Rounds(ip, k - 1)
  }

  lemma {:induction false} FailsConcat(email: string, g: Gate, a: seq<Event>, b: seq<Event>, side: Side, key: string)
    ensures Run(email, g, a + b) == Run(email, Run(email, g, a), b)
    ensures Fails(email, g, a + b, side, key)
         == Fails(email, g, a, side, key) + Fails(email, Run(email, g, a), b, side, key)
    decreases |a|
  {
    hide Step, Counts;
    if a == [] {
      assert a + b == b;
    } else {
      assert (a + b)[1..] == a[1..] + b;
      FailsConcat(email, Step(email, g, a[0]), a[1..], b, side, key);
    }
  }

  function After(j: nat, ip: string, email: string): Gate {
    Gate(if j == 0 then Limiter(map[], map[])
         else Limiter(map[ip := LockState(j, 0, None)], map[email := LockState(j, 0, None)]), map[])
  }

  lemma TwoSteps(email: string, g: Gate, a: Event, b: Event, side: Side, key: string)
    ensures var g1 := Step(email, g, a);
      && Run(email, g, [a, b]) == Step(email, g1, b)
      && Fails(email, g, [a, b], side, key)
         == (if Counts(email, g, a, side, key) then 1 else 0) + (if Counts(email, g1, b, side, key) then 1 else 0)
  {
    var g1 := Step(email, g, a);
    var g2 := Step(email, g1, b);
    hide Step, Counts;
    assert [a, b][1..] == [b] && [b][1..] == [];
    assert Run(email, g1, [b]) == Run(email, g2, []) && Run(email, g2, []) == g2;
    assert Fails(email, g1, [b], side, key) == if Counts(email, g1, b, side, key) then 1 else 0;
  }

  lemma GuessGoes(j: nat, ip: string, email: string)
    requires j < 4
    ensures Run(email, After(j, ip, email), Guess(ip)) == After(j + 1, ip, email)
    ensures Fails(email, After(j, ip, email), Guess(ip), Account, email) == 1
  {
    var g := After(j, ip, email);
    TwoSteps(email, g, Check(0, ip, 0), Fail(0, 0), Account, email);
    hide Run, Fails;
    var g1 := Step(email, g, Check(0, ip, 0));
    assert g1 == g.(flight := map[0 := ip]);
    var g2 := Step(email, g1, Fail(0, 0));
    assert g2.flight == map[];
    assert g2 == After(j + 1, ip, email);
  }

  lemma ResetGoes(ip: string, email: string)
    ensures Run(email, After(4, ip, email), Reset(ip)) == After(0, ip, email)
  {
    var g := After(4, ip, email);
    TwoSteps(email, g, Check(0, ip, 0), Succeed(0, 0), Account, email);
    hide Run, Fails;
    var g1 := Step(email, g, Check(0, ip, 0));
    assert g1 == g.(flight := map[0 := ip]);
    var g2 := Step(email, g1, Succeed(0, 0));
    assert g2.flight == map[] && g2.limiter.byIP == map[] && g2.limiter.byAcct == map[];
  }

  lemma {:induction false} RoundGoes(j: nat, ip: string, email: string)
    requires j <= 4
    ensures Run(email, After(j, ip, email), Round(ip, j)) == After(0, ip, email)
    ensures Fails(email, After(j, ip, email), Round(ip, j), Account, email) >= 4 - j
    decreases 4 - j
  {
    hide After, Run, Fails, Guess, Reset;
    if j == 4 {
      ResetGoes(ip, email);
    } else {
      GuessGoes(j, ip, email);
      RoundGoes(j + 1, ip, email);
      FailsConcat(email, After(j, ip, email), Guess(ip), Round(ip, j + 1), Account, email);
    }
  }

  /** Whoever can bring one factor can guess another as often as he likes, one request at
      a time and in no time at all: a success clears both counters. */
  lemma {:induction false} SuccessLiftsTheBound(ip: string, email: string, k: nat)
    ensures var g := Gate(Limiter(map[], map[]), map[]);
      Fails(email, g, Rounds(ip, k), Account, email) >= 4 * k && Run(email, g, Rounds(ip, k)) == g
  {
    if k > 0 {
      RoundGoes(0, ip, email);
      SuccessLiftsTheBound(ip, email, k - 1);
      FailsConcat(email, After(0, ip, email), Round(ip, 0), Rounds(ip, k - 1), Account, email);
    }
    hide Round, Run, Fails;
  }
}
