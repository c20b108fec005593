/** Sessions, agents and the idle updater over one table and one lock directory, as a
    transition system within one boot.

    A step is one table statement or one file-system call; what a caller carries from
    one to the next is a thread. The log records what happened; `locked` remembers,
    for the proofs only, which sessions got their lock. Neither influences a step. */
module SessionSystem {
  import opened Wrappers
  import opened Locks
  import S = SessionTable

  datatype Event =
    | Created(id: string)                    // Create returned success
    | LockAcquired(id: string)
    | RowClosed(id: string)                  // a Close got past the row update
    | LockReleased(id: string)
    | UpdateStarted(looked: nat)             // the directory was empty; log length when its listing began
    | UpdateBlind                            // the listing failed, which the script takes for empty

  type Log = seq<Event>

  datatype Thread =
    | Acquiring(id: string)                  // Create after the row
    | Returning(id: string)                  // Create after the lock
    | Closing(id: string)                    // Close after GetSession
    | Releasing(id: string)                  // Close after the row update
    | Deleting(name: string)                 // find after looking at one file
    | Listing(steady: set<string>, looked: nat)   // ls: what has been there all along

  type Threads = map<nat, Thread>

  datatype State = State(now: int, rows: S.Table, files: Files, threads: Threads, locked: set<string>, log: Log)

  const EMPTY: State := State(0, map[], map[], map[], {}, [])

  datatype Act =
    | Tick(passed: nat)
    | CreateRow(thread: nat, id: string, name: string)
    | CreateLock(thread: nat)
    | CreateReturn(thread: nat)
    | CloseLookup(thread: nat, id: string)
    | CloseRow(thread: nat)
    | CloseRelease(thread: nat)
    | Rename(id: string, name: string)
    | Touch(id: string)
    | AgentStart(pid: nat)
    | AgentEnd(pid: nat)
    | SweepLook(thread: nat, name: string)
    | SweepDelete(thread: nat)
    | ListStart(thread: nat)
    | ListEnd(thread: nat, seen: set<string>)
    | ListFails(thread: nat)
    | Dies(thread: nat)                      // a caller fails or gives up here

  /** A listing in progress may miss a file once it has been removed. */
  function Missed(threads: Threads, name: string): Threads {
    map n | n in threads ::
      if threads[n].Listing? then Listing(threads[n].steady - {name}, threads[n].looked) else threads[n]
  }

  /** A step that cannot happen changes nothing. */
  function Step(s: State, act: Act): State {
    match act
    case Tick(passed) => s.(now := s.now + passed)
    case CreateRow(n, id, name) => StepCreateRow(s, n, id, name)
    case CreateLock(n) => StepCreateLock(s, n)
    case CreateReturn(n) =>
      if n in s.threads && s.threads[n].Returning?
      then s.(threads := s.threads - {n}, log := s.log + [Created(s.threads[n].id)]) else s
    case CloseLookup(n, id) =>
      if n !in s.threads && id in s.rows then s.(threads := s.threads[n := Closing(id)]) else s
    case CloseRow(n) => StepCloseRow(s, n)
    case CloseRelease(n) => StepCloseRelease(s, n)
    case Rename(id, name) =>
      if id in s.rows then s.(rows := S.Rename(s.rows, id, name).value) else s
    case Touch(id) => s.(rows := S.Touch(s.rows, id, s.now))
    case AgentStart(pid) => s.(files := s.files[AgentName(pid) := s.now])
    case AgentEnd(pid) => Remove(s, AgentName(pid))
    case SweepLook(n, name) =>
      if n !in s.threads && name in s.files && IsAgentLock(name) && IsStale(s.files[name], s.now)
      then s.(threads := s.threads[n := Deleting(name)]) else s
    case SweepDelete(n) =>
      if n in s.threads && s.threads[n].Deleting?
      then Remove(s.(threads := s.threads - {n}), s.threads[n].name) else s
    case ListStart(n) =>
      if n in s.threads then s else s.(threads := s.threads[n := Listing(s.files.Keys, |s.log|)])
    case ListEnd(n, seen) => StepListEnd(s, n, seen)
    case ListFails(n) =>
      if n in s.threads && s.threads[n].Listing?
      then s.(threads := s.threads - {n}, log := s.log + [UpdateBlind]) else s
    case Dies(n) => s.(threads := s.threads - {n})
  }

  function Remove(s: State, name: string): State {
    s.(files := s.files - {name}, threads := Missed(s.threads, name))
  }

  /** The row, once tmux has its session. */
  function StepCreateRow(s: State, n: nat, id: string, name: string): State {
    if n in s.threads || !IsDaemonId(id) || id in s.rows then s
    else
      s.(rows := s.rows[id := S.Row(name, "ccr-" + id, true, s.now)],
         threads := s.threads[n := Acquiring(id)])
  }

  function StepCreateLock(s: State, n: nat): State {
    if n !in s.threads || !s.threads[n].Acquiring? then s
    else
      var id := s.threads[n].id;
      s.(files := Acquired(s.files, id, s.now), threads := s.threads[n := Returning(id)], locked := s.locked + {id},
         log := s.log + [LockAcquired(id)])
  }

  function StepCloseRow(s: State, n: nat): State {
    if n !in s.threads || !s.threads[n].Closing? then s
    else
      var id := s.threads[n].id;
      match S.Close(s.rows, id, s.now)
      case None => s.(threads := s.threads - {n})
      case Some(rows') =>
        s.(rows := rows', threads := s.threads[n := Releasing(id)], log := s.log + [RowClosed(id)])
  }

  function StepCloseRelease(s: State, n: nat): State {
    if n !in s.threads || !s.threads[n].Releasing? then s
    else
      var id := s.threads[n].id;
      s.(files := Released(s.files, id), threads := Missed(s.threads - {n}, LockName(id)),
         log := s.log + [LockReleased(id)])
  }

  /** `ls -A` shows at least what has been there all along; the update starts when it
      shows nothing. */
  function StepListEnd(s: State, n: nat, seen: set<string>): State {
    if n !in s.threads || !s.threads[n].Listing? || !(s.threads[n].steady <= seen) then s
    else if seen != {} then s.(threads := s.threads - {n})
    else s.(threads := s.threads - {n}, log := s.log + [UpdateStarted(s.threads[n].looked)])
  }

  function Run(s: State, acts: seq<Act>): State
    decreases |acts|
  {
    if acts == [] then s else Run(Step(s, acts[0]), acts[1..])
  }
}
