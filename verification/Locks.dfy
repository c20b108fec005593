/** The lock directory that sessions, agents and the idle updater share: a map from
    file name to modification time, in seconds. */
module Locks {
  import opened Wrappers
  import Decimal

  type Files = map<string, int>

  const PREFIX: string := "terminal-"
  const AGENT_PREFIX: string := "agent-"
  const STALE_SECONDS: nat := 360 * 60

  predicate IsSafe(c: char) {
    'a' <= c <= 'z' || 'A' <= c <= 'Z' || '0' <= c <= '9' || c == '-' || c == '_'
  }

  /** sanitize. */
  function Sanitize(id: string): string {
    if id == "" then "" else [if IsSafe(id[0]) then id[0] else '_'] + Sanitize(id[1..])
  }

  /** The name Path gives a session's lock inside the directory. */
  function LockName(id: string): string {
    PREFIX + Sanitize(id)
  }

  function AgentName(pid: nat): string {
    AGENT_PREFIX + Decimal.Print(pid)
  }

  /** find -name 'agent-*'. */
  predicate IsAgentLock(name: string) {
    AGENT_PREFIX <= name
  }

  /** find -mmin +360: strictly more than 360 minutes. */
  predicate IsStale(mtime: int, now: int) {
    now - mtime > STALE_SECONDS
  }

  /** O_CREATE: a lock that is there already stays as it is. */
  function Acquired(files: Files, id: string, now: int): Files {
    if LockName(id) in files then files else files[LockName(id) := now]
  }

  function Released(files: Files, id: string): Files {
    files - {LockName(id)}
  }

  /** Taking a lock makes its file or leaves the one that is there, giving it back removes
      it, and neither touches another file. */
  lemma LocksExactly(files: Files, id: string, now: int, name: string)
    ensures var taken := Acquired(files, id, now);
      && (name in taken <==> name in files || name == LockName(id))
      && (name in taken ==> taken[name] == if name in files then files[name] else now)
    ensures var left := Released(files, id);
      && (name in left <==> name in files && name != LockName(id))
      && (name in left ==> left[name] == files[name])
  {
  }

  // ---- Names ---------------------------------------------------------------------------

  /** What NewID draws: eight bytes in hexadecimal. */
  predicate IsDaemonId(id: string) {
    |id| == 16 && forall i :: 0 <= i < |id| ==> '0' <= id[i] <= '9' || 'a' <= id[i] <= 'f'
  }

  lemma {:induction false} SanitizeAt(id: string)
    ensures |Sanitize(id)| == |id|
    ensures forall i :: 0 <= i < |id| ==> Sanitize(id)[i] == if IsSafe(id[i]) then id[i] else '_'
  {
    if id != "" {
      SanitizeAt(id[1..]);
    }
  }

  /** A lock never leaves the directory, whatever the session id. */
  lemma LockStaysInside(id: string)
    ensures '/' !in LockName(id) && '\0' !in LockName(id) && LockName(id) !in {"", ".", ".."}
  {
    SanitizeAt(id);
    var name := LockName(id);
    assert name[0] == 't';
    forall i | 0 <= i < |name| ensures name[i] != '/' && name[i] != '\0' {
      if i >= |PREFIX| {
        assert name[i] == Sanitize(id)[i - |PREFIX|];
      }
    }
  }

  /** Two sessions of the daemon never share a lock ... */
  lemma LockNamesApart(id: string, other: string)
    requires IsDaemonId(id) && IsDaemonId(other)
    ensures LockName(id) == LockName(other) <==> id == other
  {
    SanitizeAt(id);
    SanitizeAt(other);
    assert Sanitize(id) == id && Sanitize(other) == other;
    assert LockName(id)[|PREFIX|..] == id && LockName(other)[|PREFIX|..] == other;
  }

  /** ... and the stale sweep never names a session's lock; it does name every
      agent's. */
  lemma SweepNamesAgentsOnly(id: string, pid: nat)
    ensures !IsAgentLock(LockName(id)) && IsAgentLock(AgentName(pid)) && LockName(id) != AgentName(pid)
  {
    assert LockName(id)[0] == 't' && AGENT_PREFIX[0] == 'a' && AgentName(pid)[0] == 'a';
  }

  /** Two agents have two locks. */
  lemma AgentNamesApart(pid: nat, other: nat)
    ensures AgentName(pid) == AgentName(other) <==> pid == other
  {
    Decimal.ValuePrint(pid);
    Decimal.ValuePrint(other);
    assert AgentName(pid)[|AGENT_PREFIX|..] == Decimal.Print(pid);
    assert AgentName(other)[|AGENT_PREFIX|..] == Decimal.Print(other);
  }

  /** Exactly: two ids share a lock if and only if they are as long and differ only where
      both have characters that get replaced, or one has such a character and the other
      what it is replaced by. */
  lemma SameLockExactly(a: string, b: string)
    ensures LockName(a) == LockName(b) <==>
      && |a| == |b|
      && forall i :: 0 <= i < |a| ==>
           a[i] == b[i] || ((!IsSafe(a[i]) || a[i] == '_') && (!IsSafe(b[i]) || b[i] == '_'))
  {
    SanitizeAt(a);
    SanitizeAt(b);
    var x, y := Sanitize(a), Sanitize(b);
    assert LockName(a)[|PREFIX|..] == x && LockName(b)[|PREFIX|..] == y;
    if |a| == |b| && forall i :: 0 <= i < |a| ==> x[i] == y[i] {
      assert x == y;
    }
  }

  // ---- The manager -----------------------------------------------------------------------

  class Manager {
    var files: Files

    constructor ()
      ensures files == map[]
    {
      files := map[];
    }

    method Path(id: string) returns (name: string)
      ensures name == LockName(id)
    {
      var b := "";
      for i := 0 to |id|
        invariant b + Sanitize(id[i..]) == Sanitize(id)
      {
        assert id[i..][0] == id[i] && id[i..][1..] == id[i + 1..];
        b := b + [if IsSafe(id[i]) then id[i] else '_'];
      }
      assert id[|id|..] == "";
      return PREFIX + b;
    }

    /** `able` is false when the file system refuses. */
    method Acquire(id: string, now: int, able: bool) returns (ok: bool)
      modifies this
      ensures ok == able && files == if able then Acquired(old(files), id, now) else old(files)
    {
      var name := Path(id);
      if !able {
        return false;
      }
      if name !in files {
        files := files[name := now];
      }
      return true;
    }

    /** Removing an absent lock is no error. */
    method Release(id: string, able: bool) returns (ok: bool)
      modifies this
      ensures ok == (able || LockName(id) !in old(files))
      ensures files == if able then Released(old(files), id) else old(files)
    {
      var name := Path(id);
      if name !in files {
        assert able ==> files - {name} == files;
        return true;
      }
      if !able {
        return false;
      }
      files := files - {name};
      return true;
    }
  }
}
