/** What holds in every run of the identity system, from an empty daemon. */
module IdentitySafety {
  import opened Wrappers
  import opened Text
  import opened Pairing
  import opened PairingAttempts
  import Base64
  import D = Devices
  import A = DeviceAuth
  import S = StepUp
  import T = Tickets
  import opened IdentitySystem
  import opened IdentityInvariant
  import IdentitySteps

  lemma Reached(cfg: Config, acts: seq<Act>)
    ensures Inv(cfg, Run(cfg, EMPTY, acts))
  {
    hide Run;
    IdentitySteps.RunKeeps(cfg, EMPTY, acts);
  }

  /** One entry of the log of a run. */
  lemma Entry(cfg: Config, log: Log, i: nat)
    requires LogOk(cfg, log) && i < |log|
    ensures Good(cfg, log, i)
  {
  }

  // ---- Pairing ---------------------------------------------------------------------------

  /** The row at entry `i` was paid for by a completed attempt of the same key, all
      three factors of which were verified after its start and within its time. */
  ghost predicate Earned(log: Log, i: nat)
    requires i < |log| && log[i].RowInserted?
  {
    var c := log[i].completed;
    && c < i && log[c].AttemptCompleted?
    && var a := log[c].serial;
    && a < c && log[a].AttemptStarted? && log[a].key == log[i].key
    && log[c].at - log[a].at <= PAIRING_TTL
    && forall f: Factor :: f in log[c].proofs && log[c].proofs[f] < c && Shows(log, a, f, log[c].proofs[f])
  }

  lemma RowEarned(cfg: Config, log: Log, i: nat)
    requires LogOk(cfg, log) && i < |log| && log[i].RowInserted?
    ensures Earned(log, i)
  {
    hide LogOk;
    Entry(cfg, log, i);
    Entry(cfg, log, log[i].completed);
  }

  /** The attempt behind a row. */
  ghost function AttemptOf(log: Log, i: nat): nat {
    if i < |log| && log[i].RowInserted? && log[i].completed < |log| && log[log[i].completed].AttemptCompleted?
    then log[log[i].completed].serial else |log|
  }

  /** Two rows come from two attempts. */
  lemma RowsApart(cfg: Config, log: Log, i: nat, j: nat)
    requires LogOk(cfg, log) && i < j < |log| && log[i].RowInserted? && log[j].RowInserted?
    ensures log[i].dev != log[j].dev && AttemptOf(log, i) != AttemptOf(log, j)
  {
    hide LogOk;
    Entry(cfg, log, i);
    Entry(cfg, log, j);
    Entry(cfg, log, log[i].completed);
    Entry(cfg, log, log[j].completed);
  }

  /** Pairing safety, over every interleaving of handlers and every passing of time:
      a device is in the table exactly if a row was inserted for it; every row
      belongs to one completed attempt with its key and all three factors in time; no
      attempt yields two rows. */
  lemma PairingSafety(cfg: Config, acts: seq<Act>)
    ensures var s := Run(cfg, EMPTY, acts);
      var log := s.log;
      && (forall dev :: dev in s.devices ==>
            exists i :: 0 <= i < |log| && log[i].RowInserted? && log[i].dev == dev && log[i].key == s.devices[dev].pubKey)
      && (forall i :: 0 <= i < |log| && log[i].RowInserted? ==> log[i].dev in s.devices && Earned(log, i))
      && (forall i, j :: 0 <= i < j < |log| && log[i].RowInserted? && log[j].RowInserted? ==>
            AttemptOf(log, i) != AttemptOf(log, j))
  {
    var s := Run(cfg, EMPTY, acts);
    Reached(cfg, acts);
    hide Run, LogOk, D.DecodeKey, Earned;
    forall dev | dev in s.devices
      ensures exists i :: 0 <= i < |s.log| && s.log[i].RowInserted? && s.log[i].dev == dev
                       && s.log[i].key == s.devices[dev].pubKey
    {
      var i := Note(s.notes.row, dev);
      assert RowOk(s.log, s.devices[dev], dev, i);
    }
    assert forall i :: 0 <= i < |s.log| && s.log[i].RowInserted? ==> s.log[i].dev in s.devices;
    hide Inv;
    RowsAllApart(cfg, s.log);
  }

  lemma RowsAllApart(cfg: Config, log: Log)
    requires LogOk(cfg, log)
    ensures forall i :: 0 <= i < |log| && log[i].RowInserted? ==> Earned(log, i)
    ensures forall i, j :: 0 <= i < j < |log| && log[i].RowInserted? && log[j].RowInserted? ==>
      AttemptOf(log, i) != AttemptOf(log, j)
  {
    hide LogOk;
    forall i | 0 <= i < |log| && log[i].RowInserted? ensures Earned(log, i) {
      RowEarned(cfg, log, i);
    }
    forall i, j | 0 <= i < j < |log| && log[i].RowInserted? && log[j].RowInserted?
      ensures AttemptOf(log, i) != AttemptOf(log, j)
    {
      RowsApart(cfg, log, i, j);
    }
  }

  // ---- Authentication ------------------------------------------------------------------------

  /** The request at entry `i` used up the latest challenge stored for its device, not
      two minutes old when taken, with a signature under the key of a row that was
      earned and not revoked. */
  ghost predicate Authentic(cfg: Config, log: Log, i: nat)
    requires i < |log| && log[i].Admitted?
  {
    var dev, t, r := log[i].dev, log[i].taken, log[i].row;
    && t < i && log[t].ChallengeTaken? && log[t].dev == dev
    && var c := log[t].stored;
    && c < t && log[c].ChallengeStored? && log[c].dev == dev
    && log[t].at <= log[c].at + A.CHALLENGE_TTL && Untouched(log, dev, c, t)
    && r < i && log[r].RowInserted? && log[r].dev == dev && Earned(log, r)
    && D.DecodeKey(log[r].key).Some? && cfg.check(D.DecodeKey(log[r].key).value, log[c].nonce, log[t].signature)
    && forall k :: 0 <= k < i ==> !(log[k].RowRevoked? && log[k].dev == dev)
  }

  lemma AdmittedAuthentic(cfg: Config, log: Log, i: nat)
    requires LogOk(cfg, log) && i < |log| && log[i].Admitted?
    ensures Authentic(cfg, log, i)
  {
    hide LogOk, Earned, D.DecodeKey;
    Entry(cfg, log, i);
    Entry(cfg, log, log[i].taken);
    RowEarned(cfg, log, log[i].row);
  }

  /** Where the challenge behind an admission was stored. */
  ghost function ChallengeOf(log: Log, i: nat): nat
  {
    if i < |log| && log[i].Admitted? && log[i].taken < |log| && log[log[i].taken].ChallengeTaken?
    then log[log[i].taken].stored else |log|
  }

  lemma ChallengesApart(cfg: Config, log: Log, i: nat, j: nat)
    requires LogOk(cfg, log) && i < j < |log| && log[i].Admitted? && log[j].Admitted?
    ensures ChallengeOf(log, i) != ChallengeOf(log, j)
  {
    AdmittedAuthentic(cfg, log, i);
    AdmittedAuthentic(cfg, log, j);
    hide LogOk, Earned, D.DecodeKey;
    Entry(cfg, log, j);
    assert log[i].taken != log[j].taken;
  }

  /** End-to-end authentication, over every run: an admitted request was authentic,
      no two used the same challenge, and only devices of the table have one. */
  lemma EndToEnd(cfg: Config, acts: seq<Act>)
    ensures var s := Run(cfg, EMPTY, acts);
      var log := s.log;
      && (forall i :: 0 <= i < |log| && log[i].Admitted? ==> Authentic(cfg, log, i))
      && (forall i, j :: 0 <= i < j < |log| && log[i].Admitted? && log[j].Admitted? ==>
            ChallengeOf(log, i) != ChallengeOf(log, j))
      && s.pending.Keys <= s.devices.Keys
  {
    var s := Run(cfg, EMPTY, acts);
    var log := s.log;
    Reached(cfg, acts);
    hide Run, LogOk, Authentic, ChallengeOk;
    assert s.pending.Keys <= s.devices.Keys;
    hide Inv;
    forall i | 0 <= i < |log| && log[i].Admitted? ensures Authentic(cfg, log, i) {
      AdmittedAuthentic(cfg, log, i);
    }
    AuthenticApart(cfg, log);
  }

  lemma AuthenticApart(cfg: Config, log: Log)
    requires LogOk(cfg, log)
    ensures forall i, j :: 0 <= i < j < |log| && log[i].Admitted? && log[j].Admitted? ==>
      ChallengeOf(log, i) != ChallengeOf(log, j)
  {
    forall i, j | 0 <= i < j < |log| && log[i].Admitted? && log[j].Admitted?
      ensures ChallengeOf(log, i) != ChallengeOf(log, j)
    {
      ChallengesApart(cfg, log, i, j);
    }
  }

  /** From `s` to `t` the row of `dev` is untouched and no request of it admitted. */
  ghost predicate Barred(s: State, t: State, dev: string) {
    && dev in s.devices && dev in t.devices && t.devices[dev] == s.devices[dev]
    && s.log <= t.log
    && forall i :: |s.log| <= i < |t.log| ==> !(t.log[i].Admitted? && t.log[i].dev == dev)
  }

  /** Once revoked, for good: whatever happens next, the row stays revoked, no row
      replaces it and no request of the device is admitted. */
  lemma {:induction false} RevokedForGood(cfg: Config, s: State, dev: string, acts: seq<Act>)
    requires dev in s.devices && s.devices[dev].revoked
    ensures Barred(s, Run(cfg, s, acts), dev)
    decreases |acts|
  {
    hide Step;
    if acts != [] {
      RevokedStep(cfg, s, dev, acts[0]);
      RevokedForGood(cfg, Step(cfg, s, acts[0]), dev, acts[1..]);
    }
  }

  lemma RevokedStep(cfg: Config, s: State, dev: string, act: Act)
    requires dev in s.devices && s.devices[dev].revoked
    ensures Barred(s, Step(cfg, s, act), dev)
  {
    if act.AuthLookup? {
      RevokedLookup(cfg, s, dev, act.thread);
    } else if act.PairInsert? || act.RevokeRow? {
      RevokedTable(cfg, s, dev, act);
    } else if act.PairStart? {
      RevokedStart(cfg, s, dev, act);
    } else if act.PairFactor? {
      RevokedFactor(cfg, s, dev, act);
    } else if act.PairComplete? {
      RevokedCompletion(cfg, s, dev, act);
    } else if act.Tick? || act.Dies? || act.ChallengeLookup? || act.ChallengeStore? || act.AuthTake? {
      RevokedChallenges(cfg, s, dev, act);
    } else {
      RevokedElsewhere(cfg, s, dev, act);
    }
  }

  lemma RevokedLookup(cfg: Config, s: State, dev: string, n: nat)
    requires dev in s.devices && s.devices[dev].revoked
    ensures Barred(s, StepAuthLookup(cfg, s, n), dev)
  {
    hide D.DecodeKey;
  }

  lemma RevokedTable(cfg: Config, s: State, dev: string, act: Act)
    requires dev in s.devices && s.devices[dev].revoked && (act.PairInsert? || act.RevokeRow?)
    ensures Barred(s, Step(cfg, s, act), dev)
  {
  }

  lemma RevokedStart(cfg: Config, s: State, dev: string, act: Act)
    requires dev in s.devices && act.PairStart?
    ensures Barred(s, Step(cfg, s, act), dev)
  {
    hide AcceptableKey, Started;
  }

  lemma RevokedFactor(cfg: Config, s: State, dev: string, act: Act)
    requires dev in s.devices && act.PairFactor?
    ensures Barred(s, Step(cfg, s, act), dev)
  {
    hide Satisfied, Proofs, Note;
  }

  lemma RevokedCompletion(cfg: Config, s: State, dev: string, act: Act)
    requires dev in s.devices && act.PairComplete?
    ensures Barred(s, Step(cfg, s, act), dev)
  {
    hide Completed, Proofs, Note;
  }

  lemma RevokedChallenges(cfg: Config, s: State, dev: string, act: Act)
    requires dev in s.devices
    requires act.Tick? || act.Dies? || act.ChallengeLookup? || act.ChallengeStore? || act.AuthTake?
    ensures Barred(s, Step(cfg, s, act), dev)
  {
    hide A.MayBeChallenged, A.StoreChallenge, A.TakeChallenge, Note;
  }

  lemma RevokedElsewhere(cfg: Config, s: State, dev: string, act: Act)
    requires dev in s.devices
    requires act.Grant? || act.StepUpConsume? || act.TicketIssue? || act.TicketUse?
    ensures Barred(s, Step(cfg, s, act), dev)
  {
    hide S.GrantKey, S.Granted, S.Consumed, S.NoNul, T.Issued, T.Used, Note;
  }

  // ---- Step-up and tickets ---------------------------------------------------------------------

  ghost predicate Covered(cfg: Config, log: Log, i: nat)
    requires i < |log| && log[i].RevokeServed?
  {
    var dev, a, g := log[i].dev, log[i].admitted, log[i].grant;
    && a < i && log[a].Admitted? && log[a].dev == dev && log[a].route.RevokeDevice? && Authentic(cfg, log, a)
    && g < i && log[g].StepUpGranted? && log[g].dev == dev && log[g].action == S.REVOKE_DEVICE
    && log[i].at <= log[g].at + S.STEP_UP_TTL
  }

  lemma ServedCovered(cfg: Config, log: Log, i: nat)
    requires LogOk(cfg, log) && i < |log| && log[i].RevokeServed?
    ensures Covered(cfg, log, i)
  {
    hide LogOk, Authentic;
    Entry(cfg, log, i);
    AdmittedAuthentic(cfg, log, log[i].admitted);
  }

  lemma ServedApart(cfg: Config, log: Log, i: nat, j: nat)
    requires LogOk(cfg, log) && i < j < |log| && log[i].RevokeServed? && log[j].RevokeServed?
    ensures log[i].grant != log[j].grant
    ensures ChallengeOf(log, log[i].admitted) != ChallengeOf(log, log[j].admitted)
  {
    Entry(cfg, log, i);
    Entry(cfg, log, j);
    var a, b := log[i].admitted, log[j].admitted;
    hide LogOk;
    if a < b {
      ChallengesApart(cfg, log, a, b);
    } else {
      ChallengesApart(cfg, log, b, a);
    }
  }

  ghost function Served(log: Log, dev: string): set<nat> {
    set i: nat | i < |log| && log[i].RevokeServed? && log[i].dev == dev
  }

  ghost function Grants(log: Log, dev: string, action: string): set<nat> {
    set i: nat | i < |log| && log[i].StepUpGranted? && log[i].dev == dev && log[i].action == action
  }

  ghost function Challenges(log: Log, dev: string): set<nat> {
    set i: nat | i < |log| && log[i].ChallengeStored? && log[i].dev == dev
  }

  ghost function Admissions(log: Log, dev: string): set<nat> {
    set i: nat | i < |log| && log[i].Admitted? && log[i].dev == dev
  }

  /** One-to-one into a set: no more than it holds. */
  lemma {:induction false} OneToOne(a: set<nat>, b: set<nat>, f: map<nat, nat>)
    requires f.Keys == a && forall i :: i in a ==> f[i] in b
    requires forall i, j :: i in a && j in a && i != j ==> f[i] != f[j]
    ensures |a| <= |b|
    decreases |a|
  {
    if a != {} {
      var x :| x in a;
      OneToOne(a - {x}, b - {f[x]}, f - {x});
    }
  }

  /** Step-up conservation, over every run: a device is never served the revoke
      handler more often than it was granted the action, nor than it was issued
      challenges; each service has its own grant, not five minutes old. */
  lemma StepUpConservation(cfg: Config, acts: seq<Act>, dev: string)
    ensures var log := Run(cfg, EMPTY, acts).log;
      && |Served(log, dev)| <= |Grants(log, dev, S.REVOKE_DEVICE)|
      && |Served(log, dev)| <= |Challenges(log, dev)|
      && forall i :: 0 <= i < |log| && log[i].RevokeServed? ==> Covered(cfg, log, i)
  {
    var log := Run(cfg, EMPTY, acts).log;
    Reached(cfg, acts);
    assert LogOk(cfg, log);
    hide *;
    AllCovered(cfg, log);
    GrantsCover(cfg, log, dev);
    ChallengesCover(cfg, log, dev);
  }

  lemma AllCovered(cfg: Config, log: Log)
    requires LogOk(cfg, log)
    ensures forall i :: 0 <= i < |log| && log[i].RevokeServed? ==> Covered(cfg, log, i)
  {
    hide LogOk, Covered;
    forall i | 0 <= i < |log| && log[i].RevokeServed? ensures Covered(cfg, log, i) {
      ServedCovered(cfg, log, i);
    }
  }

  lemma GrantsCover(cfg: Config, log: Log, dev: string)
    requires LogOk(cfg, log)
    ensures |Served(log, dev)| <= |Grants(log, dev, S.REVOKE_DEVICE)|
  {
    hide LogOk;
    var served := Served(log, dev);
    forall i | i in served ensures log[i].grant in Grants(log, dev, S.REVOKE_DEVICE) {
      ServedInSight(cfg, log, i);
    }
    forall i, j | i in served && j in served && i < j ensures log[i].grant != log[j].grant {
      ServedApart(cfg, log, i, j);
    }
    OneToOne(served, Grants(log, dev, S.REVOKE_DEVICE), map i | i in served :: log[i].grant);
  }

  lemma ChallengesCover(cfg: Config, log: Log, dev: string)
    requires LogOk(cfg, log)
    ensures |Served(log, dev)| <= |Challenges(log, dev)|
  {
    hide LogOk, ChallengeOf;
    var served := Served(log, dev);
    forall i | i in served ensures ChallengeOf(log, log[i].admitted) in Challenges(log, dev) {
      ServedInSight(cfg, log, i);
    }
    forall i, j | i in served && j in served && i < j
      ensures ChallengeOf(log, log[i].admitted) != ChallengeOf(log, log[j].admitted)
    {
      ServedApart(cfg, log, i, j);
    }
    OneToOne(served, Challenges(log, dev), map i | i in served :: ChallengeOf(log, log[i].admitted));
  }

  lemma ServedInSight(cfg: Config, log: Log, i: nat)
    requires LogOk(cfg, log) && i < |log| && log[i].RevokeServed?
    ensures log[i].grant in Grants(log, log[i].dev, S.REVOKE_DEVICE)
    ensures ChallengeOf(log, log[i].admitted) in Challenges(log, log[i].dev)
  {
    ServedCovered(cfg, log, i);
    hide LogOk, Authentic, ChallengeOf;
    ChallengeInSight(cfg, log, log[i].admitted);
  }

  lemma ChallengeInSight(cfg: Config, log: Log, i: nat)
    requires i < |log| && log[i].Admitted? && Authentic(cfg, log, i)
    ensures ChallengeOf(log, i) in Challenges(log, log[i].dev)
  {
    hide Untouched, Earned, D.DecodeKey;
  }

  /** Rows are revoked by nothing else: behind every revocation is a request of its own,
      served for exactly that row. */
  lemma RevocationsCovered(cfg: Config, acts: seq<Act>)
    ensures var log := Run(cfg, EMPTY, acts).log;
      && (forall i :: 0 <= i < |log| && log[i].RowRevoked? ==>
            var v := log[i].served;
            && v < i && log[v].RevokeServed? && Covered(cfg, log, v)
            && log[log[v].admitted].route == RevokeDevice(log[i].dev))
      && (forall i, j :: 0 <= i < j < |log| && log[i].RowRevoked? && log[j].RowRevoked? ==> log[i].served != log[j].served)
  {
    var log := Run(cfg, EMPTY, acts).log;
    Reached(cfg, acts);
    AllCovered(cfg, log);
    hide Run, Covered;
    forall i | 0 <= i < |log| && log[i].RowRevoked? ensures GoodRevoked(log, i, log[i].dev, log[i].served) {
      Entry(cfg, log, i);
    }
    hide Inv, LogOk;
  }

  /** A device is never admitted more often than it was issued challenges. */
  lemma AdmissionsConserved(cfg: Config, acts: seq<Act>, dev: string)
    ensures var log := Run(cfg, EMPTY, acts).log;
      |Admissions(log, dev)| <= |Challenges(log, dev)|
  {
    var log := Run(cfg, EMPTY, acts).log;
    EndToEnd(cfg, acts);
    hide Run, Authentic;
    forall i | 0 <= i < |log| && log[i].Admitted? ensures ChallengeOf(log, i) in Challenges(log, log[i].dev) {
      ChallengeInSight(cfg, log, i);
    }
    hide ChallengeOf;
    var admitted := Admissions(log, dev);
    OneToOne(admitted, Challenges(log, dev), map i | i in admitted :: ChallengeOf(log, i));
  }

  /** A stream was opened with a ticket of its own, not thirty seconds old, which an
      authentic request had asked for. */
  ghost predicate Ticketed(cfg: Config, log: Log, i: nat)
    requires i < |log| && log[i].StreamAdmitted?
  {
    var q := log[i].issued;
    && q < i && log[q].TicketIssued? && log[i].at < log[q].at + T.TICKET_TTL
    && var a := log[q].admitted;
    && a < q && log[a].Admitted? && log[a].route.WsTicket? && Authentic(cfg, log, a)
    && forall j :: 0 <= j < i ==> !(log[j].StreamAdmitted? && log[j].issued == q)
  }

  lemma StreamsTicketed(cfg: Config, acts: seq<Act>)
    ensures var log := Run(cfg, EMPTY, acts).log;
      forall i :: 0 <= i < |log| && log[i].StreamAdmitted? ==> Ticketed(cfg, log, i)
  {
    var log := Run(cfg, EMPTY, acts).log;
    Reached(cfg, acts);
    hide Run;
    forall i | 0 <= i < |log| && log[i].StreamAdmitted? ensures Ticketed(cfg, log, i) {
      StreamTicketed(cfg, log, i);
    }
  }

  lemma StreamTicketed(cfg: Config, log: Log, i: nat)
    requires LogOk(cfg, log) && i < |log| && log[i].StreamAdmitted?
    ensures Ticketed(cfg, log, i)
  {
    Entry(cfg, log, i);
    Entry(cfg, log, log[i].issued);
    hide LogOk, Authentic;
    AdmittedAuthentic(cfg, log, log[log[i].issued].admitted);
  }

  // ---- What a revocation does not reach --------------------------------------------------------

  /** The admission behind a stream. */
  ghost function OpenedFor(log: Log, i: nat): nat {
    if i < |log| && log[i].StreamAdmitted? && log[i].issued < |log| && log[log[i].issued].TicketIssued?
    then log[log[i].issued].admitted else |log|
  }

  /** Two streams were opened for two requests. */
  lemma StreamsApart(cfg: Config, log: Log, i: nat, j: nat)
    requires LogOk(cfg, log) && i < j < |log| && log[i].StreamAdmitted? && log[j].StreamAdmitted?
    ensures OpenedFor(log, i) != OpenedFor(log, j)
  {
    hide LogOk;
    Entry(cfg, log, i);
    Entry(cfg, log, j);
    var p, q := log[i].issued, log[j].issued;
    Entry(cfg, log, p);
    Entry(cfg, log, q);
  }

  /** The streams of a device opened after entry `r`. */
  ghost function LateStreams(log: Log, dev: string, r: nat): set<nat> {
    set i: nat | r < i < |log| && log[i].StreamAdmitted? && OpenedFor(log, i) < |log| && log[OpenedFor(log, i)].Admitted?
                 && log[OpenedFor(log, i)].dev == dev
  }

  /** The ticket requests of a device admitted before entry `r` for which no stream had
      been opened by then. */
  ghost function Owed(log: Log, dev: string, r: nat): set<nat> {
    set a: nat | a < r && a < |log| && log[a].Admitted? && log[a].dev == dev && log[a].route.WsTicket?
                 && forall i :: 0 <= i < r && i < |log| ==> OpenedFor(log, i) != a
  }

  lemma LateStreamIsOwed(cfg: Config, log: Log, r: nat, i: nat)
    requires LogOk(cfg, log) && r < |log| && log[r].RowRevoked? && i in LateStreams(log, log[r].dev, r)
    ensures OpenedFor(log, i) in Owed(log, log[r].dev, r)
  {
    StreamTicketed(cfg, log, i);
    var a := OpenedFor(log, i);
    AdmittedAuthentic(cfg, log, a);
    forall k | 0 <= k < r ensures OpenedFor(log, k) != a {
      if log[k].StreamAdmitted? {
        StreamsApart(cfg, log, k, i);
      }
    }
    hide LogOk, Earned, Untouched;
  }

  /** After a revocation a device opens no more streams than it had admitted ticket
      requests without one, each for a request of its own from before the revocation. */
  lemma StreamsAfterRevocation(cfg: Config, acts: seq<Act>, r: nat)
    requires var log := Run(cfg, EMPTY, acts).log;
      r < |log| && log[r].RowRevoked?
    ensures var log := Run(cfg, EMPTY, acts).log;
      && (forall i :: i in LateStreams(log, log[r].dev, r) ==> OpenedFor(log, i) in Owed(log, log[r].dev, r))
      && |LateStreams(log, log[r].dev, r)| <= |Owed(log, log[r].dev, r)|
  {
    var log := Run(cfg, EMPTY, acts).log;
    Reached(cfg, acts);
    assert LogOk(cfg, log);
    var late, owed := LateStreams(log, log[r].dev, r), Owed(log, log[r].dev, r);
    forall i | i in late ensures OpenedFor(log, i) in owed {
      LateStreamIsOwed(cfg, log, r, i);
    }
    forall i, j | i in late && j in late && i < j ensures OpenedFor(log, i) != OpenedFor(log, j) {
      StreamsApart(cfg, log, i, j);
    }
    hide Run, Inv, LogOk, OpenedFor;
    OneToOne(late, owed, map i | i in late :: OpenedFor(log, i));
  }

  /** And that much it can open: a request that is waiting for its ticket gets it, and
      within thirty seconds, no more, the ticket opens a stream, whatever has become of
      the row. */
  lemma TicketStillOpens(cfg: Config, s: State, n: nat, ticket: string, wait: nat)
    requires n in s.threads && s.threads[n].Ticketing? && ticket != ""
    ensures var s1 := Step(cfg, s, TicketIssue(n, ticket));
      var s' := Step(cfg, Step(cfg, s1, Tick(wait)), TicketUse(ticket));
      && s1.log == s.log + [TicketIssued(ticket, s.threads[n].admitted, s.now)]
      && s'.log == s1.log + (if wait < T.TICKET_TTL then [StreamAdmitted(|s.log|, s.now + wait)] else [])
  {
    var s1 := Step(cfg, s, TicketIssue(n, ticket));
    assert s1.tickets == T.Issued(s.tickets, ticket, s.now, cfg.sweeping) && s1.now == s.now;
    assert s1.log == s.log + [TicketIssued(ticket, s.threads[n].admitted, s.now)];
    assert Note(s1.notes.issued, ticket) == |s.log|;
    T.IssuedIsUsedOnce(s.tickets, ticket, s.now, s.now + wait, s.now + wait, cfg.sweeping);
    hide StepTicketIssue, T.Issued, T.Used;
  }

  // ---- Honest devices get in -----------------------------------------------------------------------

  /** A device with an unrevoked row that signs its challenge within two minutes is
      admitted, whatever else the daemon holds. */
  lemma HonestDeviceIsAdmitted(cfg: Config, s: State, n: nat, dev: string, nonce: seq<Byte>, sig: seq<Byte>, route: Route,
                               wait: nat)
    requires n !in s.threads && dev != "" && wait <= A.CHALLENGE_TTL
    requires A.Proves(cfg.check, s.devices, dev, nonce, sig)
    ensures Run(cfg, s, [ChallengeLookup(n, dev), ChallengeStore(n, nonce), Tick(wait), AuthTake(n, dev, sig, route), AuthLookup(n)]).log
         == s.log + [ChallengeStored(dev, nonce, s.now), ChallengeTaken(dev, |s.log|, sig, s.now + wait),
                     Admitted(dev, route, |s.log| + 1, Note(s.notes.row, dev))]
  {
    var s2 := Step(cfg, Step(cfg, s, ChallengeLookup(n, dev)), ChallengeStore(n, nonce));
    ChallengeIsStored(cfg, s, n, dev, nonce, sig);
    var s3 := Step(cfg, s2, Tick(wait));
    AnswerIsAdmitted(cfg, s, s2, n, dev, nonce, sig, route, wait);
    var s4 := Step(cfg, s3, AuthTake(n, dev, sig, route));
    var s5 := Step(cfg, s4, AuthLookup(n));
    RunFive(cfg, s, ChallengeLookup(n, dev), ChallengeStore(n, nonce), Tick(wait), AuthTake(n, dev, sig, route), AuthLookup(n));
    hide Step, Run, A.Proves;
    assert s.log + [ChallengeStored(dev, nonce, s.now)]
         + [ChallengeTaken(dev, |s.log|, sig, s.now + wait), Admitted(dev, route, |s.log| + 1, Note(s.notes.row, dev))]
        == s.log + [ChallengeStored(dev, nonce, s.now), ChallengeTaken(dev, |s.log|, sig, s.now + wait),
                    Admitted(dev, route, |s.log| + 1, Note(s.notes.row, dev))];
  }

  lemma RunCons(cfg: Config, s: State, a: Act, rest: seq<Act>)
    ensures Run(cfg, s, [a] + rest) == Run(cfg, Step(cfg, s, a), rest)
  {
    hide Step;
    assert ([a] + rest)[1..] == rest;
  }

  lemma RunFive(cfg: Config, s: State, a: Act, b: Act, c: Act, d: Act, e: Act)
    ensures Run(cfg, s, [a, b, c, d, e]) == Step(cfg, Step(cfg, Step(cfg, Step(cfg, Step(cfg, s, a), b), c), d), e)
  {
    var s1 := Step(cfg, s, a);
    var s2 := Step(cfg, s1, b);
    var s3 := Step(cfg, s2, c);
    var s4 := Step(cfg, s3, d);
    var s5 := Step(cfg, s4, e);
    assert Run(cfg, s5, []) == s5;
    assert [a, b, c, d, e] == [a] + [b, c, d, e] && [b, c, d, e] == [b] + [c, d, e] && [c, d, e] == [c] + [d, e];
    assert [d, e] == [d] + [e] && [e] == [e] + [];
    hide Step, Run;
    RunCons(cfg, s, a, [b, c, d, e]);
    RunCons(cfg, s1, b, [c, d, e]);
    RunCons(cfg, s2, c, [d, e]);
    RunCons(cfg, s3, d, [e]);
    RunCons(cfg, s4, e, []);
  }

  lemma ChallengeIsStored(cfg: Config, s: State, n: nat, dev: string, nonce: seq<Byte>, sig: seq<Byte>)
    requires n !in s.threads && A.Proves(cfg.check, s.devices, dev, nonce, sig)
    ensures var s2 := Step(cfg, Step(cfg, s, ChallengeLookup(n, dev)), ChallengeStore(n, nonce));
      && s2.pending == A.StoreChallenge(s.pending, dev, nonce, s.now, cfg.sweeping)
      && s2.log == s.log + [ChallengeStored(dev, nonce, s.now)]
      && s2.now == s.now && s2.devices == s.devices && n !in s2.threads
      && Note(s2.notes.stored, dev) == |s.log| && s2.notes.row == s.notes.row
  {
    var s1 := Step(cfg, s, ChallengeLookup(n, dev));
    assert s1 == s.(threads := s.threads[n := Storing(dev)]);
    hide A.Proves, A.MayBeChallenged, A.StoreChallenge;
  }

  lemma AnswerIsAdmitted(cfg: Config, s: State, s2: State, n: nat, dev: string, nonce: seq<Byte>, sig: seq<Byte>, route: Route,
                         wait: nat)
    requires dev != "" && wait <= A.CHALLENGE_TTL && A.Proves(cfg.check, s.devices, dev, nonce, sig)
    requires s2.pending == A.StoreChallenge(s.pending, dev, nonce, s.now, cfg.sweeping)
    requires s2.now == s.now && s2.devices == s.devices && n !in s2.threads
    requires |s2.log| == |s.log| + 1 && Note(s2.notes.stored, dev) == |s.log| && s2.notes.row == s.notes.row
    ensures Step(cfg, Step(cfg, Step(cfg, s2, Tick(wait)), AuthTake(n, dev, sig, route)), AuthLookup(n)).log
         == s2.log + [ChallengeTaken(dev, |s.log|, sig, s.now + wait), Admitted(dev, route, |s.log| + 1, Note(s.notes.row, dev))]
  {
    A.StoredComesBackOnce(s.pending, dev, nonce, s.now, s.now + wait, s.now + wait, cfg.sweeping);
    var s3 := Step(cfg, s2, Tick(wait));
    assert s3 == s2.(now := s2.now + wait);
    hide A.StoreChallenge, A.TakeChallenge, A.Proves;
    var s4 := StepAuthTake(s3, n, dev, sig, route);
    assert s4.log == s2.log + [ChallengeTaken(dev, |s.log|, sig, s.now + wait)];
    assert s4.devices == s.devices && s4.notes == s2.notes;
    assert n in s4.threads && s4.threads[n] == Checking(dev, nonce, sig, route, |s2.log|);
    hide StepAuthTake, Continued, Note;
    assert s4.log + [Admitted(dev, route, |s.log| + 1, Note(s.notes.row, dev))]
        == s2.log + [ChallengeTaken(dev, |s.log|, sig, s.now + wait), Admitted(dev, route, |s.log| + 1, Note(s.notes.row, dev))];
  }

  // ---- In terms of keys --------------------------------------------------------------------------

  /** Every admission of a run was under the key whose text the device was paired with. */
  lemma AdmittedUnderItsKey(cfg: Config, acts: seq<Act>, i: nat, k: seq<Byte>)
    requires var log := Run(cfg, EMPTY, acts).log;
      i < |log| && log[i].Admitted? && log[i].row < |log| && log[log[i].row].RowInserted?
      && log[log[i].row].key == Base64.Encode(k, true)
    ensures var log := Run(cfg, EMPTY, acts).log;
      var t := log[i].taken;
      && t < |log| && log[t].ChallengeTaken? && log[t].stored < |log| && log[log[t].stored].ChallengeStored?
      && |k| == D.PUBLIC_KEY_SIZE && cfg.check(k, log[log[t].stored].nonce, log[t].signature)
  {
    EndToEnd(cfg, acts);
    D.KeyIsRead(k);
    hide Run, D.DecodeKey, Base64.Encode, Untouched, Earned;
  }

  /** And a device paired with the text of k that signs its challenge under k in time is
      admitted. */
  lemma HonestKeyIsAdmitted(cfg: Config, s: State, n: nat, dev: string, k: seq<Byte>, nonce: seq<Byte>, sig: seq<Byte>,
                            route: Route, wait: nat)
    requires n !in s.threads && dev != "" && wait <= A.CHALLENGE_TTL
    requires dev in s.devices && !s.devices[dev].revoked
    requires s.devices[dev].pubKey == Base64.Encode(k, true) && |k| == D.PUBLIC_KEY_SIZE && cfg.check(k, nonce, sig)
    ensures Admitted(dev, route, |s.log| + 1, Note(s.notes.row, dev)) in
      Run(cfg, s, [ChallengeLookup(n, dev), ChallengeStore(n, nonce), Tick(wait), AuthTake(n, dev, sig, route), AuthLookup(n)]).log
  {
    A.UnderItsKey(cfg.check, s.devices, dev, k, nonce, sig);
    hide *;
    HonestDeviceIsAdmitted(cfg, s, n, dev, nonce, sig, route, wait);
  }
}
