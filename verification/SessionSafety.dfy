/** What holds at every point of every interleaving of sessions, agents and updater. */
module SessionSafety {
  import opened Wrappers
  import opened Locks
  import S = SessionTable
  import opened SessionSystem

  // ---- The invariant --------------------------------------------------------------------

  ghost predicate Held(rows: S.Table, files: Files, id: string) {
    id in rows && (rows[id].open ==> LockName(id) in files)
  }

  ghost predicate ClosedBefore(log: Log, i: int, id: string) {
    exists j :: 0 <= j < i <= |log| && log[j] == RowClosed(id)
  }

  ghost predicate ThreadOk(s: State, t: Thread) {
    match t
    case Acquiring(id) => id in s.rows
    case Returning(id) => id in s.locked
    case Closing(id) => id in s.rows
    case Releasing(id) => id in s.rows && !s.rows[id].open
    case Deleting(name) => IsAgentLock(name)
    case Listing(steady, looked) =>
      && looked <= |s.log|
      && (forall k :: 0 <= k < looked && s.log[k].Created? && s.log[k].id in s.rows && s.rows[s.log[k].id].open ==>
            LockName(s.log[k].id) in steady)
  }

  ghost predicate EventOk(s: State, i: nat)
    requires i < |s.log|
  {
    match s.log[i]
    case Created(id) => id in s.locked
    case LockAcquired(id) => id in s.locked
    case RowClosed(id) => id in s.rows && !s.rows[id].open && !ClosedBefore(s.log, i, id)
    case LockReleased(id) => ClosedBefore(s.log, i, id)
    case UpdateStarted(looked) =>
      looked <= i && forall k :: 0 <= k < looked && s.log[k].Created? ==> ClosedBefore(s.log, i, s.log[k].id)
    case UpdateBlind => true
  }

  ghost predicate RowsOk(s: State) {
    && (forall id :: id in s.rows ==> IsDaemonId(id))
    && (forall id :: id in s.rows && !s.rows[id].open ==> ClosedBefore(s.log, |s.log|, id))
    && (forall id :: id in s.locked ==> Held(s.rows, s.files, id))
  }

  ghost predicate ThreadsOk(s: State) {
    forall n :: n in s.threads ==> ThreadOk(s, s.threads[n])
  }

  ghost predicate LogOk(s: State) {
    forall i :: 0 <= i < |s.log| ==> EventOk(s, i)
  }

  ghost predicate Inv(s: State) {
    RowsOk(s) && ThreadsOk(s) && LogOk(s)
  }

  // ---- Steps that only touch threads or decorate rows --------------------------------------

  /** The same rows to any reader of ids and status. */
  ghost predicate SameStatus(r: S.Table, q: S.Table) {
    r.Keys == q.Keys && forall id :: id in r ==> r[id].open == q[id].open
  }

  /** No log entry, no file fewer, statuses as they were, threads that are in order. */
  lemma QuietKeeps(s: State, t: State)
    requires Inv(s) && SameStatus(s.rows, t.rows) && s.files.Keys <= t.files.Keys
    requires t.locked == s.locked && t.log == s.log
    requires forall n :: n in t.threads ==> (n in s.threads && t.threads[n] == s.threads[n]) || ThreadOk(t, t.threads[n])
    ensures Inv(t)
  {
    hide IsDaemonId, ClosedBefore, LockName;
    forall n | n in t.threads ensures ThreadOk(t, t.threads[n]) {
      if n in s.threads && t.threads[n] == s.threads[n] {
        assert ThreadOk(s, s.threads[n]);
      }
    }
    forall i | 0 <= i < |t.log| ensures EventOk(t, i) {
      assert EventOk(s, i);
    }
  }

  /** Losing a file that is no session's lock. */
  lemma RemoveKeeps(s: State, name: string)
    requires Inv(s) && IsAgentLock(name)
    ensures Inv(Remove(s, name))
  {
    var t := Remove(s, name);
    assert t.rows == s.rows && t.log == s.log && t.locked == s.locked;
    forall id: string ensures LockName(id) != name {
      SweepNamesAgentsOnly(id, 0);
    }
    hide Remove, IsDaemonId, ClosedBefore, LockName, IsAgentLock;
    assert t.files == s.files - {name} && t.threads == Missed(s.threads, name) by { RemoveIs(s, name); }
    forall n | n in t.threads ensures ThreadOk(t, t.threads[n]) {
      assert ThreadOk(s, s.threads[n]);
    }
    forall i | 0 <= i < |t.log| ensures EventOk(t, i) {
      assert EventOk(s, i);
    }
  }

  lemma RemoveIs(s: State, name: string)
    ensures Remove(s, name).files == s.files - {name} && Remove(s, name).threads == Missed(s.threads, name)
  {
  }

  // ---- Adding an entry to the log -------------------------------------------------------------

  lemma ClosedStays(log: Log, e: Event, i: int, id: string)
    requires i <= |log|
    ensures ClosedBefore(log, i, id) <==> ClosedBefore(log + [e], i, id)
  {
    if ClosedBefore(log, i, id) {
      var j :| 0 <= j < i <= |log| && log[j] == RowClosed(id);
      assert (log + [e])[j] == RowClosed(id);
    }
  }

  /** An entry beside the old ones. Statuses may only go from open to closed. */
  lemma EventsStay(s: State, t: State, e: Event)
    requires LogOk(s) && t.log == s.log + [e] && s.locked <= t.locked
    requires forall id :: id in s.rows && !s.rows[id].open ==> id in t.rows && !t.rows[id].open
    requires EventOk(t, |s.log|)
    ensures LogOk(t)
  {
    forall i | 0 <= i < |s.log| ensures EventOk(t, i) {
      assert EventOk(s, i);
      match s.log[i]
      case Created(_) =>
      case LockAcquired(_) =>
      case UpdateBlind =>
      case RowClosed(id) => ClosedStays(s.log, e, i, id);
      case LockReleased(id) => ClosedStays(s.log, e, i, id);
      case UpdateStarted(looked) =>
        forall k | 0 <= k < looked && s.log[k].Created? ensures ClosedBefore(t.log, i, s.log[k].id) {
          ClosedStays(s.log, e, i, s.log[k].id);
        }
    }
  }

  lemma CreateRowKeeps(s: State, n: nat, id: string, name: string)
    requires Inv(s)
    ensures Inv(StepCreateRow(s, n, id, name))
  {
    if n !in s.threads && IsDaemonId(id) && id !in s.rows {
      var row := S.Row(name, "ccr-" + id, true, s.now);
      var t := s.(rows := s.rows[id := row], threads := s.threads[n := Acquiring(id)]);
      hide IsDaemonId, ClosedBefore, LockName;
      forall m | m in t.threads ensures ThreadOk(t, t.threads[m]) {
        if m != n {
          assert ThreadOk(s, s.threads[m]);
          NotYetCreated(s, id);
        }
      }
      forall i | 0 <= i < |t.log| ensures EventOk(t, i) {
        assert EventOk(s, i);
      }
    }
  }

  /** A session without a row has not been created. */
  lemma NotYetCreated(s: State, id: string)
    requires RowsOk(s) && LogOk(s) && id !in s.rows
    ensures forall k :: 0 <= k < |s.log| ==> !(s.log[k].Created? && s.log[k].id == id)
  {
    hide IsDaemonId, ClosedBefore, LockName;
    forall k | 0 <= k < |s.log| ensures !(s.log[k].Created? && s.log[k].id == id) {
      assert EventOk(s, k);
    }
  }

  lemma CreateLockKeeps(s: State, n: nat)
    requires Inv(s)
    ensures Inv(StepCreateLock(s, n))
  {
    if n in s.threads && s.threads[n].Acquiring? {
      var id := s.threads[n].id;
      assert ThreadOk(s, s.threads[n]);
      var u := s.(files := Acquired(s.files, id, s.now), threads := s.threads - {n}, locked := s.locked + {id});
      LockTakenKeeps(s, n, id);
      LoggedKeeps(u, u.(log := s.log + [LockAcquired(id)]), LockAcquired(id));
      ThreadAdded(u.(log := s.log + [LockAcquired(id)]), n, Returning(id));
      assert u.threads[n := Returning(id)] == s.threads[n := Returning(id)];
    }
  }

  lemma LockTakenKeeps(s: State, n: nat, id: string)
    requires Inv(s) && id in s.rows
    ensures Inv(s.(files := Acquired(s.files, id, s.now), threads := s.threads - {n}, locked := s.locked + {id}))
  {
    var t := s.(files := Acquired(s.files, id, s.now), threads := s.threads - {n}, locked := s.locked + {id});
    assert s.files.Keys <= t.files.Keys && LockName(id) in t.files;
    hide IsDaemonId, ClosedBefore, LockName, Acquired;
    forall m | m in t.threads ensures ThreadOk(t, t.threads[m]) {
      assert ThreadOk(s, s.threads[m]);
    }
    forall i | 0 <= i < |t.log| ensures EventOk(t, i) {
      assert EventOk(s, i);
    }
  }

  lemma ThreadAdded(s: State, n: nat, t: Thread)
    requires Inv(s) && ThreadOk(s, t)
    ensures Inv(s.(threads := s.threads[n := t]))
  {
    var u := s.(threads := s.threads[n := t]);
    assert ThreadOk(u, t);
    hide ThreadOk, IsDaemonId, LockName;
    QuietThreads(s, u);
  }

  /** Nothing but threads changed. */
  lemma QuietThreads(s: State, u: State)
    requires Inv(s) && u == s.(threads := u.threads)
    requires forall n :: n in u.threads ==> (n in s.threads && u.threads[n] == s.threads[n]) || ThreadOk(u, u.threads[n])
    ensures Inv(u)
  {
    hide Inv, ThreadOk;
    QuietKeeps(s, u);
  }

  lemma CreateReturnKeeps(s: State, n: nat)
    requires Inv(s) && n in s.threads && s.threads[n].Returning?
    ensures Inv(s.(threads := s.threads - {n}, log := s.log + [Created(s.threads[n].id)]))
  {
    var e := Created(s.threads[n].id);
    var t := s.(threads := s.threads - {n}, log := s.log + [e]);
    assert ThreadOk(s, s.threads[n]);
    LoggedKeeps(s, t, e);
  }

  /** An entry of any kind but a row update, with nothing else changed but a thread
      that is gone. */
  lemma LoggedKeeps(s: State, t: State, e: Event)
    requires Inv(s) && t.rows == s.rows && t.files == s.files && t.locked == s.locked && t.log == s.log + [e]
    requires forall n :: n in t.threads ==> n in s.threads && t.threads[n] == s.threads[n]
    requires EventOk(t, |s.log|)
    ensures Inv(t)
  {
    hide IsDaemonId, LockName, ClosedBefore;
    EventsStay(s, t, e);
    forall id | id in t.rows && !t.rows[id].open ensures ClosedBefore(t.log, |t.log|, id) {
      ClosedLater(s.log, e, id);
    }
    hide LogOk, EventOk;
    forall n | n in t.threads ensures ThreadOk(t, t.threads[n]) {
      assert ThreadOk(s, s.threads[n]);
    }
  }

  lemma ClosedLater(log: Log, e: Event, id: string)
    requires ClosedBefore(log, |log|, id) || e == RowClosed(id)
    ensures ClosedBefore(log + [e], |log| + 1, id)
  {
    if e == RowClosed(id) {
      assert (log + [e])[|log|] == RowClosed(id);
    } else {
      var j :| 0 <= j < |log| && log[j] == RowClosed(id);
      assert (log + [e])[j] == RowClosed(id);
    }
  }

  lemma CloseRowKeeps(s: State, n: nat)
    requires Inv(s)
    ensures Inv(StepCloseRow(s, n))
  {
    if n in s.threads && s.threads[n].Closing? {
      var id := s.threads[n].id;
      if id in s.rows && s.rows[id].open {
        RowClosedKeeps(s, n, id);
      } else {
        QuietKeeps(s, s.(threads := s.threads - {n}));
      }
    }
  }

  lemma RowClosedKeeps(s: State, n: nat, id: string)
    requires Inv(s) && id in s.rows && s.rows[id].open
    ensures Inv(s.(rows := s.rows[id := s.rows[id].(open := false, lastActive := s.now)],
                   threads := s.threads[n := Releasing(id)], log := s.log + [RowClosed(id)]))
  {
    var e := RowClosed(id);
    var t := s.(rows := s.rows[id := s.rows[id].(open := false, lastActive := s.now)],
                threads := s.threads[n := Releasing(id)], log := s.log + [e]);
    hide IsDaemonId, LockName;
    NotYetClosed(s, id);
    ClosedStays(s.log, e, |s.log|, id);
    hide ClosedBefore;
    EventsStay(s, t, e);
    forall i | i in t.rows && !t.rows[i].open ensures ClosedBefore(t.log, |t.log|, i) {
      ClosedLater(s.log, e, i);
    }
    hide LogOk, EventOk;
    forall m | m in t.threads ensures ThreadOk(t, t.threads[m]) {
      if m != n {
        assert ThreadOk(s, s.threads[m]);
      }
    }
  }

  lemma NotYetClosed(s: State, id: string)
    requires LogOk(s) && id in s.rows && s.rows[id].open
    ensures !ClosedBefore(s.log, |s.log|, id)
  {
    forall j | 0 <= j < |s.log| ensures s.log[j] != RowClosed(id) {
      assert EventOk(s, j);
    }
  }

  lemma CloseReleaseKeeps(s: State, n: nat)
    requires Inv(s)
    ensures Inv(StepCloseRelease(s, n))
  {
    if n in s.threads && s.threads[n].Releasing? {
      var id := s.threads[n].id;
      var e := LockReleased(id);
      var u := s.(threads := s.threads - {n}, log := s.log + [e]);
      assert ThreadOk(s, s.threads[n]);
      ClosedStays(s.log, e, |s.log|, id);
      LoggedKeeps(s, u, e);
      ReleasedKeeps(u, id);
      assert StepCloseRelease(s, n) == Remove(u, LockName(id));
    }
  }

  /** No open session loses its lock to a session that is closed. */
  lemma OthersApart(rows: S.Table, id: string)
    requires forall i :: i in rows ==> IsDaemonId(i)
    requires id in rows && !rows[id].open
    ensures forall other :: other in rows && rows[other].open ==> LockName(other) != LockName(id)
  {
    forall other | other in rows && rows[other].open ensures LockName(other) != LockName(id) {
      LockNamesApart(id, other);
    }
  }

  /** Losing the lock of a session that is closed. */
  lemma ReleasedKeeps(s: State, id: string)
    requires Inv(s) && id in s.rows && !s.rows[id].open
    ensures Inv(Remove(s, LockName(id)))
  {
    hide ClosedBefore, IsDaemonId, LockName;
    var t := Remove(s, LockName(id));
    RemoveIs(s, LockName(id));
    assert t.rows == s.rows && t.log == s.log && t.locked == s.locked;
    OthersApart(s.rows, id);
    hide Remove;
    forall n | n in t.threads ensures ThreadOk(t, t.threads[n]) {
      assert ThreadOk(s, s.threads[n]);
    }
    forall i | 0 <= i < |t.log| ensures EventOk(t, i) {
      assert EventOk(s, i);
    }
  }

  lemma ListStartKeeps(s: State, n: nat)
    requires Inv(s)
    ensures Inv(s.(threads := s.threads[n := Listing(s.files.Keys, |s.log|)]))
  {
    var t := s.(threads := s.threads[n := Listing(s.files.Keys, |s.log|)]);
    hide IsDaemonId, LockName, ClosedBefore;
    forall k | 0 <= k < |s.log| && s.log[k].Created? ensures Held(s.rows, s.files, s.log[k].id) {
      assert EventOk(s, k);
    }
    assert ThreadOk(t, t.threads[n]);
    QuietKeeps(s, t);
  }

  lemma ListEndKeeps(s: State, n: nat, seen: set<string>)
    requires Inv(s)
    ensures Inv(StepListEnd(s, n, seen))
  {
    if n in s.threads && s.threads[n].Listing? && s.threads[n].steady <= seen {
      hide IsDaemonId, LockName, ClosedBefore;
      if seen != {} {
        QuietKeeps(s, s.(threads := s.threads - {n}));
      } else {
        NothingOpen(s, n);
        var e := UpdateStarted(s.threads[n].looked);
        LoggedKeeps(s, s.(threads := s.threads - {n}, log := s.log + [e]), e);
      }
    }
  }

  /** An empty listing: whatever was created before it began has been closed. */
  lemma NothingOpen(s: State, n: nat)
    requires Inv(s) && n in s.threads && s.threads[n].Listing? && s.threads[n].steady == {}
    ensures var e := UpdateStarted(s.threads[n].looked);
      EventOk(s.(threads := s.threads - {n}, log := s.log + [e]), |s.log|)
  {
    var looked := s.threads[n].looked;
    var e := UpdateStarted(looked);
    var log' := s.log + [e];
    hide IsDaemonId, LockName;
    assert ThreadOk(s, s.threads[n]);
    forall k | 0 <= k < looked && log'[k].Created? ensures ClosedBefore(log', |s.log|, log'[k].id) {
      assert EventOk(s, k) && log'[k] == s.log[k];
      assert Held(s.rows, s.files, s.log[k].id);
      ClosedStays(s.log, e, |s.log|, s.log[k].id);
    }
  }

  // ---- Every step, every run ----------------------------------------------------------------------

  lemma StepKeeps(s: State, act: Act)
    requires Inv(s)
    ensures Inv(Step(s, act))
  {
    hide RowsOk, LogOk, Remove, StepCreateRow, StepCreateLock, StepCloseRow, StepCloseRelease, StepListEnd,
         IsDaemonId, LockName;
    match act
    case CreateRow(n, id, name) => CreateRowKeeps(s, n, id, name);
    case CreateLock(n) => CreateLockKeeps(s, n);
    case CreateReturn(n) =>
      if n in s.threads && s.threads[n].Returning? {
        CreateReturnKeeps(s, n);
      }
    case CloseRow(n) => CloseRowKeeps(s, n);
    case CloseRelease(n) => CloseReleaseKeeps(s, n);
    case AgentEnd(pid) => AgentNameIs(pid); RemoveKeeps(s, AgentName(pid));
    case SweepDelete(n) =>
      if n in s.threads && s.threads[n].Deleting? {
        assert ThreadOk(s, s.threads[n]);
        QuietKeeps(s, s.(threads := s.threads - {n}));
        RemoveKeeps(s.(threads := s.threads - {n}), s.threads[n].name);
      }
    case ListStart(n) =>
      if n !in s.threads {
        ListStartKeeps(s, n);
      }
    case ListEnd(n, seen) => ListEndKeeps(s, n, seen);
    case ListFails(n) =>
      if n in s.threads && s.threads[n].Listing? {
        LoggedKeeps(s, Step(s, act), UpdateBlind);
      }
    case _ => QuietStep(s, act);
  }

  lemma AgentNameIs(pid: nat)
    ensures IsAgentLock(AgentName(pid))
  {
    SweepNamesAgentsOnly("", pid);
  }

  lemma QuietStep(s: State, act: Act)
    requires Inv(s)
    requires act.Tick? || act.CloseLookup? || act.Rename? || act.Touch? || act.AgentStart? || act.SweepLook? || act.Dies?
    ensures Inv(Step(s, act))
  {
    hide Inv, AgentName, IsAgentLock;
    QuietKeeps(s, Step(s, act));
  }

  lemma {:induction false} RunKeeps(s: State, acts: seq<Act>)
    requires Inv(s)
    ensures Inv(Run(s, acts))
    decreases |acts|
  {
    hide Inv, Step;
    if acts != [] {
      StepKeeps(s, acts[0]);
      RunKeeps(Step(s, acts[0]), acts[1..]);
    }
  }

  // ---- The results ---------------------------------------------------------------------------------

  /** At every point of every interleaving, a session whose Create returned success
      and whose row is open has its lock. */
  lemma OpenSessionsAreLocked(acts: seq<Act>)
    ensures var s := Run(EMPTY, acts);
      forall k :: 0 <= k < |s.log| && s.log[k].Created? ==>
        s.log[k].id in s.rows && (s.rows[s.log[k].id].open ==> LockName(s.log[k].id) in s.files)
  {
    RunKeeps(EMPTY, acts);
    var s := Run(EMPTY, acts);
    hide Run, IsDaemonId, LockName, ClosedBefore;
    forall k | 0 <= k < |s.log| && s.log[k].Created? ensures Held(s.rows, s.files, s.log[k].id) {
      assert EventOk(s, k);
    }
  }

  /** An update starts only when every session created before the updater's look at
      the directory has been closed by its user. */
  lemma NoUpdateUnderASession(acts: seq<Act>)
    ensures var log := Run(EMPTY, acts).log;
      forall i, k :: 0 <= i < |log| && log[i].UpdateStarted? && 0 <= k < log[i].looked ==>
        log[i].looked <= i && (log[k].Created? ==> ClosedBefore(log, i, log[k].id))
  {
    RunKeeps(EMPTY, acts);
    var s := Run(EMPTY, acts);
    hide Run, RowsOk, ThreadsOk, ClosedBefore;
    forall i, k | 0 <= i < |s.log| && s.log[i].UpdateStarted? && 0 <= k < s.log[i].looked
      ensures s.log[i].looked <= i && (s.log[k].Created? ==> ClosedBefore(s.log, i, s.log[k].id))
    {
      assert EventOk(s, i);
    }
  }

  /** Of any number of closes of one session, one gets past the row update; and a lock
      is released only after it. */
  lemma ClosedOnce(acts: seq<Act>)
    ensures var log := Run(EMPTY, acts).log;
      && (forall i, j :: 0 <= i < j < |log| && log[i].RowClosed? && log[j].RowClosed? ==> log[i].id != log[j].id)
      && (forall i :: 0 <= i < |log| && log[i].LockReleased? ==> ClosedBefore(log, i, log[i].id))
  {
    RunKeeps(EMPTY, acts);
    var s := Run(EMPTY, acts);
    var log := s.log;
    hide Run, RowsOk, ThreadsOk;
    forall i, j | 0 <= i < j < |log| && log[i].RowClosed? && log[j].RowClosed? ensures log[i].id != log[j].id {
      assert EventOk(s, j);
    }
    forall i | 0 <= i < |log| && log[i].LockReleased? ensures ClosedBefore(log, i, log[i].id) {
      assert EventOk(s, i);
    }
  }

  /** The converse is false: a close between the row and the lock leaves a lock behind
      with no open session. */
  lemma LockMayOutlive(id: string)
    requires IsDaemonId(id)
    ensures exists acts :: var s := Run(EMPTY, acts);
      LockName(id) in s.files && id in s.rows && !s.rows[id].open && s.threads == map[]
  {
    var closing := [CreateRow(0, id, ""), CloseLookup(1, id), CloseRow(1), CloseRelease(1)];
    var locking := [CreateLock(0), CreateReturn(0)];
    ClosedTooEarly(id);
    RunOn(EMPTY, closing, locking);
    var s := Run(EMPTY, closing);
    RunTwo(s, locking);
    LockedTooLate(s, id);
    assert locking[2..] == [] && Run(Step(Step(s, locking[0]), locking[1]), []) == Step(Step(s, locking[0]), locking[1]);
    hide Step, IsDaemonId, LockName;
  }

  lemma ClosedTooEarly(id: string)
    requires IsDaemonId(id)
    ensures var s := Run(EMPTY, [CreateRow(0, id, ""), CloseLookup(1, id), CloseRow(1), CloseRelease(1)]);
      id in s.rows && !s.rows[id].open && s.threads == map[0 := Acquiring(id)]
  {
    var closing := [CreateRow(0, id, ""), CloseLookup(1, id), CloseRow(1), CloseRelease(1)];
    RunTwo(EMPTY, closing);
    var u := Step(Step(EMPTY, closing[0]), closing[1]);
    RunTwo(u, closing[2..]);
    assert closing[2..][2..] == [];
    assert Run(Step(Step(u, closing[2]), closing[3]), []) == Step(Step(u, closing[2]), closing[3]);
    hide Run, IsDaemonId;
    assert u.threads == map[0 := Acquiring(id), 1 := Closing(id)] && id in u.rows && u.rows[id].open;
    ReleasedTooEarly(u, id);
  }

  lemma ReleasedTooEarly(u: State, id: string)
    requires u.threads == map[0 := Acquiring(id), 1 := Closing(id)] && id in u.rows && u.rows[id].open
    ensures var s := Step(Step(u, CloseRow(1)), CloseRelease(1));
      id in s.rows && !s.rows[id].open && s.threads == map[0 := Acquiring(id)]
  {
    hide LockName;
    var v := Step(u, CloseRow(1));
    assert v.threads == map[0 := Acquiring(id), 1 := Releasing(id)] && id in v.rows && !v.rows[id].open;
    hide StepCloseRow;
    assert Missed(v.threads - {1}, LockName(id)) == map[0 := Acquiring(id)];
  }

  lemma LockedTooLate(s: State, id: string)
    requires s.threads == map[0 := Acquiring(id)] && id in s.rows && !s.rows[id].open
    ensures var t := Step(Step(s, CreateLock(0)), CreateReturn(0));
      LockName(id) in t.files && id in t.rows && !t.rows[id].open && t.threads == map[]
  {
    hide LockName;
  }

  lemma RunTwo(s: State, acts: seq<Act>)
    requires |acts| >= 2
    ensures Run(s, acts) == Run(Step(Step(s, acts[0]), acts[1]), acts[2..])
  {
    hide Step;
    assert acts[1..][1..] == acts[2..];
  }

  lemma {:induction false} RunOn(s: State, acts: seq<Act>, more: seq<Act>)
    ensures Run(s, acts + more) == Run(Run(s, acts), more)
    decreases |acts|
  {
    hide Step;
    if acts == [] {
      assert acts + more == more;
    } else {
      assert (acts + more)[1..] == acts[1..] + more;
      RunOn(Step(s, acts[0]), acts[1..], more);
    }
  }
}
