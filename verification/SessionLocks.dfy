/** Which locks are there, exactly: the log of acquisitions and releases decides. */
module SessionLocks {
  import opened Wrappers
  import opened Locks
  import S = SessionTable
  import opened SessionSystem
  import opened SessionSafety

  /** The last thing that happened to the lock of a session was that it was acquired. */
  predicate LastHeld(log: Log, id: string) {
    if log == [] then false
    else
      var e := log[|log| - 1];
      if e == LockAcquired(id) then true
      else if e == LockReleased(id) then false
      else LastHeld(log[..|log| - 1], id)
  }

  ghost predicate AcquiredBefore(log: Log, i: int, id: string) {
    exists j :: 0 <= j < i <= |log| && log[j] == LockAcquired(id)
  }

  /** The files are what the log says. */
  ghost predicate FilesOk(s: State) {
    forall id :: IsDaemonId(id) ==> (LockName(id) in s.files <==> LastHeld(s.log, id))
  }

  /** A lock is acquired once, by the Create of its session, and before it returns. */
  ghost predicate OnceOk(s: State) {
    && (forall i :: 0 <= i < |s.log| && s.log[i].LockAcquired? ==>
          s.log[i].id in s.rows && !AcquiredBefore(s.log, i, s.log[i].id))
    && (forall i :: 0 <= i < |s.log| && s.log[i].Created? ==> AcquiredBefore(s.log, i, s.log[i].id))
    && (forall n :: n in s.threads && s.threads[n].Acquiring? ==>
          s.threads[n].id in s.rows && !AcquiredBefore(s.log, |s.log|, s.threads[n].id))
    && (forall n, m :: n in s.threads && m in s.threads && n != m && s.threads[n].Acquiring? && s.threads[m].Acquiring? ==>
          s.threads[n].id != s.threads[m].id)
    && (forall n :: n in s.threads && s.threads[n].Returning? ==> AcquiredBefore(s.log, |s.log|, s.threads[n].id))
  }

  lemma HeldAfter(log: Log, e: Event, id: string)
    ensures LastHeld(log + [e], id)
         == if e == LockAcquired(id) then true else if e == LockReleased(id) then false else LastHeld(log, id)
  {
    assert (log + [e])[..|log|] == log;
  }

  lemma AcquiredStays(log: Log, e: Event, i: int, id: string)
    requires i <= |log|
    ensures AcquiredBefore(log, i, id) <==> AcquiredBefore(log + [e], i, id)
  {
    if AcquiredBefore(log, i, id) {
      var j :| 0 <= j < i <= |log| && log[j] == LockAcquired(id);
      assert (log + [e])[j] == LockAcquired(id);
    }
  }

  lemma AcquiredAfter(log: Log, e: Event, id: string)
    ensures AcquiredBefore(log + [e], |log| + 1, id) <==> AcquiredBefore(log, |log|, id) || e == LockAcquired(id)
  {
    AcquiredStays(log, e, |log|, id);
    if e == LockAcquired(id) {
      assert (log + [e])[|log|] == LockAcquired(id);
    } else if AcquiredBefore(log + [e], |log| + 1, id) {
      var j :| 0 <= j < |log| + 1 && (log + [e])[j] == LockAcquired(id);
      assert j < |log|;
    }
  }

  // ---- Files -------------------------------------------------------------------------------

  lemma FilesStep(s: State, act: Act)
    requires Inv(s) && FilesOk(s)
    ensures FilesOk(Step(s, act))
  {
    forall id | IsDaemonId(id) ensures LockName(id) in Step(s, act).files <==> LastHeld(Step(s, act).log, id) {
      FileStep(s, act, id);
    }
  }

  lemma FileStep(s: State, act: Act, id: string)
    requires Inv(s) && IsDaemonId(id) && (LockName(id) in s.files <==> LastHeld(s.log, id))
    ensures LockName(id) in Step(s, act).files <==> LastHeld(Step(s, act).log, id)
  {
    if act.CreateLock? && act.thread in s.threads && s.threads[act.thread].Acquiring? {
      assert ThreadOk(s, s.threads[act.thread]);
      LockNamesApart(id, s.threads[act.thread].id);
      HeldAfter(s.log, LockAcquired(s.threads[act.thread].id), id);
    } else if act.CloseRelease? && act.thread in s.threads && s.threads[act.thread].Releasing? {
      assert ThreadOk(s, s.threads[act.thread]);
      LockNamesApart(id, s.threads[act.thread].id);
      HeldAfter(s.log, LockReleased(s.threads[act.thread].id), id);
    } else if act.SweepDelete? && act.thread in s.threads && s.threads[act.thread].Deleting? {
      assert ThreadOk(s, s.threads[act.thread]);
      SweepNamesAgentsOnly(id, 0);
    } else if act.AgentStart? || act.AgentEnd? {
      SweepNamesAgentsOnly(id, act.pid);
    } else {
      QuietFile(s, act, id);
    }
    hide Inv, IsDaemonId, LockName, LastHeld, IsAgentLock, AgentName, S.Close;
  }

  /** The steps that touch no file. */
  lemma QuietFile(s: State, act: Act, id: string)
    requires LockName(id) in s.files <==> LastHeld(s.log, id)
    requires act.CreateLock? ==> !(act.thread in s.threads && s.threads[act.thread].Acquiring?)
    requires act.CloseRelease? ==> !(act.thread in s.threads && s.threads[act.thread].Releasing?)
    requires act.SweepDelete? ==> !(act.thread in s.threads && s.threads[act.thread].Deleting?)
    requires !act.AgentStart? && !act.AgentEnd?
    ensures LockName(id) in Step(s, act).files <==> LastHeld(Step(s, act).log, id)
  {
    var s' := Step(s, act);
    assert s'.files == s.files;
    if s'.log != s.log {
      var e := s'.log[|s.log|];
      assert s'.log == s.log + [e] && !e.LockAcquired? && !e.LockReleased?;
      HeldAfter(s.log, e, id);
    }
    hide Step, LockName, LastHeld;
  }

  // ---- Once ---------------------------------------------------------------------------------

  /** A step that logs at most one entry, which acquires nothing and returns nothing, and
      leaves no new Create under way. */
  lemma OnceStays(s: State, t: State)
    requires OnceOk(s) && s.rows.Keys <= t.rows.Keys
    requires t.log == s.log || (|t.log| == |s.log| + 1 && t.log[..|s.log|] == s.log)
    requires |t.log| == |s.log| + 1 ==> !t.log[|s.log|].LockAcquired?
    requires |t.log| == |s.log| + 1 && t.log[|s.log|].Created? ==> AcquiredBefore(s.log, |s.log|, t.log[|s.log|].id)
    requires forall n :: n in t.threads && (t.threads[n].Acquiring? || t.threads[n].Returning?) ==>
      n in s.threads && t.threads[n] == s.threads[n]
    ensures OnceOk(t)
  {
    if t.log != s.log {
      var e := t.log[|s.log|];
      assert t.log == s.log + [e];
      forall id, i: int | 0 <= i <= |s.log| ensures AcquiredBefore(t.log, i, id) <==> AcquiredBefore(s.log, i, id) {
        AcquiredStays(s.log, e, i, id);
      }
      forall id ensures AcquiredBefore(t.log, |t.log|, id) <==> AcquiredBefore(s.log, |s.log|, id) {
        AcquiredAfter(s.log, e, id);
      }
    }
    hide AcquiredBefore;
  }

  lemma OnceStep(s: State, act: Act)
    requires OnceOk(s)
    ensures OnceOk(Step(s, act))
  {
    hide OnceOk, AgentName, Remove, StepCreateRow, StepCreateLock, StepCloseRow, StepCloseRelease;
    match act
    case CreateRow(n, id, name) => OnceRow(s, n, id, name);
    case CreateLock(n) => OnceLock(s, n);
    case CreateReturn(n) =>
      if n in s.threads && s.threads[n].Returning? {
        OnceReturn(s, n);
      }
    case CloseRelease(n) => OnceRelease(s, n);
    case CloseRow(n) => OnceClose(s, n);
    case AgentEnd(pid) => OnceRemove(s, AgentName(pid));
    case SweepDelete(n) =>
      if n in s.threads && s.threads[n].Deleting? {
        OnceFewer(s, n);
        OnceRemove(s.(threads := s.threads - {n}), s.threads[n].name);
      }
    case _ => OnceQuiet(s, act);
  }

  lemma OnceFewer(s: State, n: nat)
    requires OnceOk(s)
    ensures OnceOk(s.(threads := s.threads - {n}))
  {
    hide OnceOk;
    OnceStays(s, s.(threads := s.threads - {n}));
  }

  lemma OnceQuiet(s: State, act: Act)
    requires OnceOk(s)
    requires !act.CreateRow? && !act.CreateLock? && !act.CreateReturn? && !act.CloseRow? && !act.CloseRelease?
    requires !act.AgentEnd? && !act.SweepDelete?
    ensures OnceOk(Step(s, act))
  {
    hide OnceOk, AgentName, IsAgentLock, IsStale;
    OnceStays(s, Step(s, act));
  }

  lemma OnceRemove(s: State, name: string)
    requires OnceOk(s)
    ensures OnceOk(Remove(s, name))
  {
    hide OnceOk;
    OnceStays(s, Remove(s, name));
  }

  lemma OnceRelease(s: State, n: nat)
    requires OnceOk(s)
    ensures OnceOk(StepCloseRelease(s, n))
  {
    hide OnceOk, LockName;
    OnceStays(s, StepCloseRelease(s, n));
  }

  lemma OnceClose(s: State, n: nat)
    requires OnceOk(s)
    ensures OnceOk(StepCloseRow(s, n))
  {
    hide OnceOk;
    OnceStays(s, StepCloseRow(s, n));
  }

  lemma OnceReturn(s: State, n: nat)
    requires OnceOk(s) && n in s.threads && s.threads[n].Returning?
    ensures OnceOk(s.(threads := s.threads - {n}, log := s.log + [Created(s.threads[n].id)]))
  {
    assert AcquiredBefore(s.log, |s.log|, s.threads[n].id);
    hide OnceOk, AcquiredBefore;
    OnceStays(s, s.(threads := s.threads - {n}, log := s.log + [Created(s.threads[n].id)]));
  }

  lemma OnceRow(s: State, n: nat, id: string, name: string)
    requires OnceOk(s)
    ensures OnceOk(StepCreateRow(s, n, id, name))
  {
    if n !in s.threads && IsDaemonId(id) && id !in s.rows {
      assert !AcquiredBefore(s.log, |s.log|, id);
    }
    hide AcquiredBefore, IsDaemonId;
  }

  lemma OnceLock(s: State, n: nat)
    requires OnceOk(s)
    ensures OnceOk(StepCreateLock(s, n))
  {
    if n in s.threads && s.threads[n].Acquiring? {
      var t := StepCreateLock(s, n);
      var id := s.threads[n].id;
      var e := LockAcquired(id);
      assert t.log == s.log + [e] && t.rows == s.rows && t.threads == s.threads[n := Returning(id)];
      forall i, other | 0 <= i <= |s.log| ensures AcquiredBefore(t.log, i, other) <==> AcquiredBefore(s.log, i, other) {
        AcquiredStays(s.log, e, i, other);
      }
      forall other ensures AcquiredBefore(t.log, |t.log|, other) <==> AcquiredBefore(s.log, |s.log|, other) || other == id {
        AcquiredAfter(s.log, e, other);
      }
      hide AcquiredBefore, StepCreateLock;
    }
  }

  lemma {:induction false} RunLocks(s: State, acts: seq<Act>)
    requires Inv(s) && FilesOk(s) && OnceOk(s)
    ensures FilesOk(Run(s, acts)) && OnceOk(Run(s, acts)) && Inv(Run(s, acts))
    decreases |acts|
  {
    hide Inv, FilesOk, OnceOk, Step;
    if acts != [] {
      StepKeeps(s, acts[0]);
      FilesStep(s, acts[0]);
      OnceStep(s, acts[0]);
      RunLocks(Step(s, acts[0]), acts[1..]);
    }
  }

  // ---- The results ------------------------------------------------------------------------------

  /** At every point of every interleaving, a session's lock is there if and only if the
      last thing that happened to it was that it was acquired. So a closed session
      leaves a lock behind exactly if an acquisition came last. */
  lemma LockExactly(acts: seq<Act>, id: string)
    requires IsDaemonId(id)
    ensures var s := Run(EMPTY, acts);
      LockName(id) in s.files <==> LastHeld(s.log, id)
  {
    RunLocks(EMPTY, acts);
    hide Run, Inv, IsDaemonId, LockName;
  }

  /** After the one acquisition of a lock only releases count. */
  lemma {:induction false} HeldSince(log: Log, k: nat, id: string)
    requires k < |log| && log[k] == LockAcquired(id)
    requires forall i :: k < i < |log| ==> log[i] != LockAcquired(id)
    ensures LastHeld(log, id) <==> forall i :: k < i < |log| ==> log[i] != LockReleased(id)
    decreases |log|
  {
    var z := |log| - 1;
    if k < z && log[z] != LockReleased(id) {
      HeldSince(log[..z], k, id);
    }
  }

  /** A close that comes after its Create has returned: the lock is gone if and only if
      that close went on to release it. Nothing else takes it away, and nothing brings
      it back. */
  lemma ClosedLockGone(acts: seq<Act>, created: nat, closed: nat)
    requires var log := Run(EMPTY, acts).log;
      created < closed < |log| && log[created].Created? && log[closed] == RowClosed(log[created].id)
    ensures var s := Run(EMPTY, acts);
      var id := s.log[created].id;
      LockName(id) in s.files <==> forall i :: closed < i < |s.log| ==> s.log[i] != LockReleased(id)
  {
    var s := Run(EMPTY, acts);
    var id := s.log[created].id;
    RunLocks(EMPTY, acts);
    assert EventOk(s, closed) && AcquiredBefore(s.log, created, id);
    assert IsDaemonId(id);
    var k :| 0 <= k < created && s.log[k] == LockAcquired(id);
    forall i | k < i < |s.log| ensures s.log[i] != LockAcquired(id) {
      assert s.log[i] == LockAcquired(id) ==> AcquiredBefore(s.log, i, id);
    }
    HeldSince(s.log, k, id);
    forall i | 0 <= i < |s.log| && s.log[i] == LockReleased(id) ensures closed < i {
      ReleasedAfterClose(s, closed, i);
    }
    hide Run, Inv, IsDaemonId, LockName, OnceOk;
  }

  lemma ReleasedAfterClose(s: State, closed: nat, i: nat)
    requires Inv(s) && closed < |s.log| && i < |s.log| && s.log[closed].RowClosed?
    requires s.log[i] == LockReleased(s.log[closed].id)
    ensures closed < i
  {
    hide RowsOk, ThreadsOk;
    assert EventOk(s, i);
    var j :| 0 <= j < i && s.log[j] == s.log[closed];
    if j < closed {
      assert EventOk(s, closed);
    } else if closed < j {
      assert EventOk(s, j);
    }
  }
}
