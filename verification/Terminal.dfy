/** The terminal manager ties a row, a tmux session and a lock together. */
module Terminal {
  import opened Wrappers
  import Locks
  import S = SessionTable
  import Y = SessionSystem

  function TmuxName(id: string): string {
    "ccr-" + id
  }

  /** Two sessions have two tmux sessions. */
  lemma TmuxNamesApart(id: string, other: string)
    ensures TmuxName(id) == TmuxName(other) <==> id == other
  {
    assert TmuxName(id)[4..] == id && TmuxName(other)[4..] == other;
  }

  /** Rows and files before the first step of a run. */
  function Before(rows: S.Table, files: Locks.Files, now: int): Y.State {
    Y.State(now, rows, files, map[], {}, [])
  }

  /** The steps of a Create, and of a Close, that nothing interrupts. */
  function CreateSteps(id: string, name: string): seq<Y.Act> {
    [Y.CreateRow(0, id, name), Y.CreateLock(0), Y.CreateReturn(0)]
  }

  function CloseSteps(id: string): seq<Y.Act> {
    [Y.CloseLookup(0, id), Y.CloseRow(0), Y.CloseRelease(0)]
  }

  lemma ThreeSteps(s: Y.State, a: Y.Act, b: Y.Act, c: Y.Act)
    ensures Y.Run(s, [a, b, c]) == Y.Step(Y.Step(Y.Step(s, a), b), c)
  {
    hide Y.Step;
    var t := Y.Step(s, a);
    assert [a, b, c][1..] == [b, c] && [b, c][1..] == [c] && [c][1..] == [];
    assert Y.Run(t, [b, c]) == Y.Run(Y.Step(t, b), [c]) == Y.Run(Y.Step(Y.Step(t, b), c), []);
  }

  /** They put in the row and the lock of the session ... */
  lemma CreateRuns(rows: S.Table, files: Locks.Files, id: string, name: string, now: int)
    requires Locks.IsDaemonId(id) && id !in rows
    ensures var s := Y.Run(Before(rows, files, now), CreateSteps(id, name));
      && Some(s.rows) == S.Insert(rows, id, S.Row(name, TmuxName(id), true, now))
      && s.files == Locks.Acquired(files, id, now)
      && s.threads == map[] && s.log == [Y.LockAcquired(id), Y.Created(id)]
  {
    hide Locks.IsDaemonId, Locks.LockName;
    ThreeSteps(Before(rows, files, now), Y.CreateRow(0, id, name), Y.CreateLock(0), Y.CreateReturn(0));
  }

  /** ... and close the row and give back the lock. */
  lemma CloseRuns(rows: S.Table, files: Locks.Files, id: string, now: int)
    requires S.Close(rows, id, now).Some?
    ensures var s := Y.Run(Before(rows, files, now), CloseSteps(id));
      && Some(s.rows) == S.Close(rows, id, now) && s.files == Locks.Released(files, id)
      && s.threads == map[] && s.log == [Y.RowClosed(id), Y.LockReleased(id)]
  {
    hide Locks.LockName;
    ThreeSteps(Before(rows, files, now), Y.CloseLookup(0, id), Y.CloseRow(0), Y.CloseRelease(0));
  }

  datatype Outcome = Created | Closed | TmuxFailed | RowFailed | LockFailed | ReadFailed | NotFound | KillFailed

  class Manager {
    const locks: Locks.Manager
    var rows: S.Table
    var tmux: set<string>

    constructor (locks: Locks.Manager)
      ensures rows == map[] && tmux == {} && this.locks == locks
    {
      this.locks := locks;
      rows, tmux := map[], {};
    }

    function Fresh(name: string, id: string, now: int): S.Row {
      S.Row(name, TmuxName(id), true, now)
    }

    /** Create, for a freshly drawn id. Each flag says whether that operation's
        surroundings let it succeed. */
    method Create(id: string, name: string, now: int,
                  tmuxAble: bool, rowAble: bool, killAble: bool, lockAble: bool, readAble: bool) returns (r: Outcome)
      modifies this, locks
      ensures r == TmuxFailed <==> !tmuxAble || TmuxName(id) in old(tmux)
      ensures r == TmuxFailed ==> rows == old(rows) && tmux == old(tmux) && locks.files == old(locks.files)
      ensures r == RowFailed <==> tmuxAble && TmuxName(id) !in old(tmux) && (!rowAble || id in old(rows))
      ensures r == RowFailed ==>
        && rows == old(rows) && locks.files == old(locks.files)
        && tmux == old(tmux) + (if killAble then {} else {TmuxName(id)})
      ensures r == LockFailed ==>
        && !lockAble && Some(rows) == S.Insert(old(rows), id, Fresh(name, id, now))
        && tmux == old(tmux) + {TmuxName(id)} && locks.files == old(locks.files)
      ensures r == Created || r == ReadFailed ==>
        && Some(rows) == S.Insert(old(rows), id, Fresh(name, id, now)) && tmux == old(tmux) + {TmuxName(id)}
        && locks.files == Locks.Acquired(old(locks.files), id, now)
      ensures r == LockFailed <==> tmuxAble && TmuxName(id) !in old(tmux) && rowAble && id !in old(rows) && !lockAble
      ensures r == ReadFailed <==>
        tmuxAble && TmuxName(id) !in old(tmux) && rowAble && id !in old(rows) && lockAble && !readAble
      ensures r == Created <==>
        tmuxAble && TmuxName(id) !in old(tmux) && rowAble && id !in old(rows) && lockAble && readAble
      ensures r in {TmuxFailed, RowFailed, LockFailed, ReadFailed, Created}
      ensures r == Created && Locks.IsDaemonId(id) ==>
        var s := Y.Run(Before(old(rows), old(locks.files), now), CreateSteps(id, name));
        rows == s.rows && locks.files == s.files
    {
      if Locks.IsDaemonId(id) && id !in rows {
        CreateRuns(rows, locks.files, id, name, now);
      }
      var session := TmuxName(id);
      if !tmuxAble || session in tmux {
        return TmuxFailed;
      }
      tmux := tmux + {session};
      if !rowAble || id in rows {
        if killAble {
          tmux := tmux - {session};
        }
        return RowFailed;
      }
      rows := rows[id := S.Row(name, session, true, now)];
      var locked := locks.Acquire(id, now, lockAble);
      if !locked {
        return LockFailed;
      }
      return if readAble then Created else ReadFailed;
    }

    /** Close: the lock goes even when tmux does not. */
    method Close(id: string, now: int, readAble: bool, rowAble: bool, killAble: bool, lockAble: bool) returns (r: Outcome)
      modifies this, locks
      ensures var closed := S.Close(old(rows), id, now);
        if !readAble || !rowAble || closed.None?
        then r == NotFound && rows == old(rows) && tmux == old(tmux) && locks.files == old(locks.files)
        else
          && rows == closed.value
          && tmux == (if killAble then old(tmux) - {old(rows)[id].tmux} else old(tmux))
          && locks.files == (if lockAble then Locks.Released(old(locks.files), id) else old(locks.files))
          && r == (if !lockAble && Locks.LockName(id) in old(locks.files) then LockFailed
                   else if killAble then Closed else KillFailed)
      ensures r == Closed && lockAble ==>
        var s := Y.Run(Before(old(rows), old(locks.files), now), CloseSteps(id));
        rows == s.rows && locks.files == s.files
    {
      if S.Close(rows, id, now).Some? {
        CloseRuns(rows, locks.files, id, now);
      }
      if !readAble || id !in rows {
        return NotFound;
      }
      var session := rows[id].tmux;
      if !rowAble || !rows[id].open {
        return NotFound;
      }
      rows := rows[id := rows[id].(open := false, lastActive := now)];
      if killAble {
        tmux := tmux - {session};
      }
      var released := locks.Release(id, lockAble);
      if !released {
        return LockFailed;
      }
      return if killAble then Closed else KillFailed;
    }
  }
}
