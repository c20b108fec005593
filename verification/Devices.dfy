/** The devices table and the adapter that authentication reads it through. */
module Devices {
  import opened Wrappers
  import opened Text
  import Base64

  datatype Row = Row(name: string, platform: string, pubKey: string, revoked: bool)

  type Table = map<string, Row>

  const PUBLIC_KEY_SIZE: nat := 32

  /** A base64 text of an Ed25519 public key: what /owner/pair/start insists on and
      what a lookup needs. */
  function DecodeKey(pubKey: string): (r: Option<seq<Byte>>)
    ensures r.Some? ==> |r.value| == PUBLIC_KEY_SIZE
  {
    var raw := Base64.Decode(pubKey, true);
    if raw.Some? && |raw.value| == PUBLIC_KEY_SIZE then raw else None
  }

  /** INSERT with a primary key; None when the id is taken. */
  function Insert(t: Table, id: string, row: Row): Option<Table> {
    if id in t then None else Some(t[id := row])
  }

  /** UPDATE ... SET revoked = 1; None is sql.ErrNoRows. */
  function Revoke(t: Table, id: string): Option<Table> {
    if id in t then Some(t[id := t[id].(revoked := true)]) else None
  }

  /** Store.Device: a row with a malformed key is as good as absent. */
  datatype Lookup = Absent | Found(key: seq<Byte>, revoked: bool)

  function Device(t: Table, id: string): Lookup {
    if id !in t then Absent
    else
      match DecodeKey(t[id].pubKey)
      case None => Absent
      case Some(key) => Found(key, t[id].revoked)
  }

  datatype Revocation = Done | NoSuchDevice | Failed

  class Store {
    var rows: Table

    constructor ()
      ensures rows == map[]
    {
      rows := map[];
    }

    /** `able` is false when the database refuses for a reason of its own. */
    method PairDevice(id: string, name: string, platform: string, pubKey: string, able: bool) returns (ok: bool)
      modifies this
      ensures ok == (able && Insert(old(rows), id, Row(name, platform, pubKey, false)).Some?)
      ensures rows == if ok then Insert(old(rows), id, Row(name, platform, pubKey, false)).value else old(rows)
    {
      if !able || id in rows {
        return false;
      }
      rows := rows[id := Row(name, platform, pubKey, false)];
      return true;
    }

    method RevokeDevice(id: string, able: bool) returns (r: Revocation)
      modifies this
      ensures r == if !able then Failed else if id in old(rows) then Done else NoSuchDevice
      ensures rows == if r.Done? then Revoke(old(rows), id).value else old(rows)
    {
      if !able {
        return Failed;
      }
      if id !in rows {
        return NoSuchDevice;
      }
      rows := rows[id := rows[id].(revoked := true)];
      return Done;
    }
  }

  // ---- Keys and rows ----------------------------------------------------------------

  /** The text of a key is read as that key, if it has the size of one. */
  lemma KeyIsRead(k: seq<Byte>)
    ensures DecodeKey(Base64.Encode(k, true)) == if |k| == PUBLIC_KEY_SIZE then Some(k) else None
  {
    Base64.RoundTrip(k, true);
    hide Base64.Encode, Base64.Decode;
  }

  /** So a device paired with the text of a key is looked up with that key. */
  lemma DeviceHasItsKey(t: Table, id: string, k: seq<Byte>)
    requires id in t && t[id].pubKey == Base64.Encode(k, true) && |k| == PUBLIC_KEY_SIZE
    ensures Device(t, id) == Found(k, t[id].revoked)
  {
    KeyIsRead(k);
    hide DecodeKey, Base64.Encode;
  }

  /** A revocation marks its row and changes nothing else, and works for every row there
      is; an insertion adds its row and changes nothing else, and works for every new id. */
  lemma RowsExactly(t: Table, id: string, row: Row, other: string)
    ensures Revoke(t, id).Some? <==> id in t
    ensures Insert(t, id, row).Some? <==> id !in t
    ensures id in t ==>
      var t' := Revoke(t, id).value;
      && id in t' && t'[id] == Row(t[id].name, t[id].platform, t[id].pubKey, true)
      && (other != id ==> (other in t' <==> other in t) && (other in t ==> t'[other] == t[other]))
    ensures id !in t ==>
      var t' := Insert(t, id, row).value;
      && id in t' && t'[id] == row
      && (other != id ==> (other in t' <==> other in t) && (other in t ==> t'[other] == t[other]))
  {
  }
}
