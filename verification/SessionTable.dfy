/** The sessions table. */
module SessionTable {
  import opened Wrappers

  datatype Row = Row(name: string, tmux: string, open: bool, lastActive: int)

  type Table = map<string, Row>

  /** INSERT with a primary key. */
  function Insert(t: Table, id: string, row: Row): Option<Table> {
    if id in t then None else Some(t[id := row])
  }

  /** UPDATE ... WHERE id = ? AND status = 'open'; None is sql.ErrNoRows. */
  function Close(t: Table, id: string, now: int): Option<Table> {
    if id in t && t[id].open then Some(t[id := t[id].(open := false, lastActive := now)]) else None
  }

  function Rename(t: Table, id: string, name: string): Option<Table> {
    if id in t then Some(t[id := t[id].(name := name)]) else None
  }

  function Touch(t: Table, id: string, now: int): Table {
    if id in t then t[id := t[id].(lastActive := now)] else t
  }

  /** What the statements do to the rows: a primary key is inserted once, an open row is
      closed once, a name or a time is all that the other two change, and no statement
      touches another row. */
  lemma StatementsAre(t: Table, id: string, other: string, row: Row, name: string, now: int)
    ensures Insert(t, id, row).Some? <==> id !in t
    ensures id !in t ==> var t' := Insert(t, id, row).value;
      id in t' && t'[id] == row && (other != id ==> (other in t' <==> other in t) && (other in t ==> t'[other] == t[other]))
    ensures Close(t, id, now).Some? <==> id in t && t[id].open
    ensures Close(t, id, now).Some? ==> var t' := Close(t, id, now).value;
      && t'.Keys == t.Keys && !t'[id].open && t'[id].lastActive == now
      && t'[id].name == t[id].name && t'[id].tmux == t[id].tmux
      && (other in t && other != id ==> t'[other] == t[other])
    ensures Rename(t, id, name).Some? <==> id in t
    ensures id in t ==> var t' := Rename(t, id, name).value;
      && t'.Keys == t.Keys && t'[id] == Row(name, t[id].tmux, t[id].open, t[id].lastActive)
      && (other in t && other != id ==> t'[other] == t[other])
    ensures var t' := Touch(t, id, now);
      && t'.Keys == t.Keys && (id in t ==> t'[id] == Row(t[id].name, t[id].tmux, t[id].open, now))
      && (other in t && other != id ==> t'[other] == t[other])
  {
  }
}
