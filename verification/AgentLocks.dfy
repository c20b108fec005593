/** How long the lock of a running agent holds back the updater. */
module AgentLocks {
  import opened Wrappers
  import opened Locks
  import S = SessionTable
  import opened SessionSystem

  /** The agent's lock is there, nobody is about to delete it, and whoever is listing has
      seen it or will. */
  ghost predicate Guarded(s: State, name: string) {
    && name in s.files && s.files[name] <= s.now
    && forall n :: n in s.threads ==>
         s.threads[n] != Deleting(name) && (s.threads[n].Listing? ==> name in s.threads[n].steady)
  }

  /** What one step may add to the log. */
  ghost predicate NoUpdate(s: State, t: State) {
    t.log == s.log || (|t.log| == |s.log| + 1 && t.log[..|s.log|] == s.log && !t.log[|s.log|].UpdateStarted?)
  }

  lemma GuardStays(s: State, t: State, name: string)
    requires Guarded(s, name) && s.now <= t.now
    requires name in t.files && s.files[name] <= t.files[name] <= t.now
    requires forall n :: n in t.threads ==>
      || (n in s.threads && t.threads[n] == s.threads[n])
      || (t.threads[n] != Deleting(name) && (t.threads[n].Listing? ==> name in t.threads[n].steady))
    ensures Guarded(t, name)
  {
  }

  lemma RemoveGuards(s: State, name: string, other: string)
    requires Guarded(s, name) && other != name
    ensures var t := Remove(s, other);
      Guarded(t, name) && t.files[name] == s.files[name] && t.log == s.log
  {
  }

  /** One step. Only the agent itself takes its lock away before its time. */
  lemma GuardedStep(s: State, act: Act, pid: nat)
    requires Guarded(s, AgentName(pid)) && act != AgentEnd(pid)
    requires s.now <= s.files[AgentName(pid)] + STALE_SECONDS
    ensures var t := Step(s, act);
      Guarded(t, AgentName(pid)) && s.files[AgentName(pid)] <= t.files[AgentName(pid)] && NoUpdate(s, t)
  {
    var name := AgentName(pid);
    forall id: string ensures LockName(id) != name {
      SweepNamesAgentsOnly(id, pid);
    }
    hide LockName, AgentName, IsDaemonId, Remove, S.Close, StepCloseRelease, IsAgentLock;
    match act
    case AgentStart(p) =>
    case AgentEnd(p) =>
      AgentNamesApart(p, pid);
      RemoveGuards(s, name, AgentName(p));
    case SweepDelete(n) =>
      if n in s.threads && s.threads[n].Deleting? {
        var u := s.(threads := s.threads - {n});
        GuardStays(s, u, name);
        RemoveGuards(u, name, s.threads[n].name);
      }
    case CloseRelease(n) => ReleaseGuards(s, n, name);
    case CreateLock(n) =>
    case ListEnd(n, seen) =>
    case _ =>
  }

  lemma ReleaseGuards(s: State, n: nat, name: string)
    requires Guarded(s, name) && forall id: string :: LockName(id) != name
    ensures var t := StepCloseRelease(s, n);
      Guarded(t, name) && t.files[name] == s.files[name] && NoUpdate(s, t)
  {
    hide LockName;
  }

  lemma {:induction false} TimeGrows(s: State, acts: seq<Act>)
    ensures s.now <= Run(s, acts).now
    decreases |acts|
  {
    if acts != [] {
      TimeGrows(Step(s, acts[0]), acts[1..]);
    }
  }

  /** For 360 minutes, and as long as the agent does not end, its lock stays and no update
      starts, whatever sessions, other agents and updaters do. */
  lemma {:induction false} AgentHoldsUpdates(s: State, acts: seq<Act>, pid: nat)
    requires Guarded(s, AgentName(pid)) && AgentEnd(pid) !in acts
    requires Run(s, acts).now <= s.files[AgentName(pid)] + STALE_SECONDS
    ensures var t := Run(s, acts);
      && AgentName(pid) in t.files && s.log <= t.log
      && forall i :: |s.log| <= i < |t.log| ==> !t.log[i].UpdateStarted?
    decreases |acts|
  {
    if acts != [] {
      TimeGrows(s, acts);
      hide Guarded, AgentName, Step;
      GuardedStep(s, acts[0], pid);
      assert forall a :: a in acts[1..] ==> a in acts;
      AgentHoldsUpdates(Step(s, acts[0]), acts[1..], pid);
    } else {
      hide AgentName;
    }
  }

  /** An agent that starts while no listing is under way and nobody is about to delete its
      lock has it guarded. */
  lemma StartGuards(s: State, pid: nat)
    requires forall n :: n in s.threads ==> s.threads[n] != Deleting(AgentName(pid)) && !s.threads[n].Listing?
    ensures Guarded(Step(s, AgentStart(pid)), AgentName(pid))
    ensures Step(s, AgentStart(pid)).files[AgentName(pid)] == s.now
  {
  }

  /** The sweep takes a file exactly if it is an agent's and older than 360 minutes. */
  lemma SweepTakesExactly(s: State, n: nat, name: string)
    requires n !in s.threads && name in s.files
    ensures name in Run(s, [SweepLook(n, name), SweepDelete(n)]).files
       <==> !(AGENT_PREFIX <= name && s.now - s.files[name] > 360 * 60)
  {
    var look, delete := SweepLook(n, name), SweepDelete(n);
    assert [look, delete][1..] == [delete] && [delete][1..] == [];
    var u := Step(s, look);
    assert Run(s, [look, delete]) == Run(u, [delete]) == Run(Step(u, delete), []);
  }

  /** That nobody is about to delete it is needed: find looks before it deletes, and the
      lock it saw may have been replaced by that of a new process with the same number. */
  lemma FreshLockSwept(s: State, n: nat, pid: nat)
    requires n !in s.threads && AgentName(pid) in s.files && IsStale(s.files[AgentName(pid)], s.now)
    ensures var name := AgentName(pid);
      var renewed := Step(Step(Step(s, SweepLook(n, name)), AgentEnd(pid)), AgentStart(pid));
      name in renewed.files && renewed.files[name] == renewed.now && name !in Step(renewed, SweepDelete(n)).files
  {
    SweepNamesAgentsOnly("", pid);
  }
}
