/** Challenge and response for paired devices: the map of outstanding challenges. */
module DeviceAuth {
  import opened Wrappers
  import opened Text
  import opened Devices
  import Base64

  const SECOND: nat := 1_000_000_000
  const CHALLENGE_TTL: nat := 120 * SECOND

  datatype Challenge = Challenge(nonce: seq<Byte>, expiresAt: int)

  type Pending = map<string, Challenge>

  /** ed25519.Verify, left uninterpreted: key, message, signature. */
  type SignatureCheck = (seq<Byte>, seq<Byte>, seq<Byte>) -> bool

  predicate Stale(c: Challenge, now: int) {
    now > c.expiresAt
  }

  function Swept(p: Pending, now: int): Pending {
    map d | d in p && !Stale(p[d], now) :: p[d]
  }

  function SweptIf(p: Pending, now: int, sweeping: bool): Pending {
    if sweeping then Swept(p, now) else p
  }

  /** IssueChallenge stores only for a device that exists and is not revoked. */
  predicate MayBeChallenged(t: Table, dev: string) {
    Device(t, dev).Found? && !Device(t, dev).revoked
  }

  /** The locked section of IssueChallenge. */
  function StoreChallenge(p: Pending, dev: string, nonce: seq<Byte>, now: int, sweeping: bool): Pending {
    SweptIf(p, now, sweeping)[dev := Challenge(nonce, now + CHALLENGE_TTL)]
  }

  /** The locked section of Verify: the challenge is gone, whatever comes next. */
  function TakeChallenge(p: Pending, dev: string, now: int): (Pending, Option<Challenge>) {
    if dev !in p then (p, None)
    else (p - {dev}, if Stale(p[dev], now) then None else Some(p[dev]))
  }

  /** The rest of Verify, against the table as it is then. */
  predicate Proves(check: SignatureCheck, t: Table, dev: string, nonce: seq<Byte>, signature: seq<Byte>) {
    match Device(t, dev)
    case Absent => false
    case Found(key, revoked) => !revoked && check(key, nonce, signature)
  }

  /** A challenge is handed back exactly once and as it was stored, if it is asked for
      within two minutes and no later one replaced it; other devices' challenges are
      not touched unless they are stale. */
  lemma StoredComesBackOnce(p: Pending, dev: string, nonce: seq<Byte>, stored: int, asked: int, again: int, sweeping: bool)
    ensures var p1 := StoreChallenge(p, dev, nonce, stored, sweeping);
      var (p2, c) := TakeChallenge(p1, dev, asked);
      && c == (if asked <= stored + CHALLENGE_TTL then Some(Challenge(nonce, stored + CHALLENGE_TTL)) else None)
      && TakeChallenge(p2, dev, again).1 == None
      && (forall d :: d in p && d != dev && !Stale(p[d], stored) ==> d in p2 && p2[d] == p[d])
  {
  }

  /** A device with the text of a key in its row may be challenged unless it is revoked,
      and proves itself exactly by a signature under that key. */
  lemma UnderItsKey(check: SignatureCheck, t: Table, dev: string, k: seq<Byte>, nonce: seq<Byte>, signature: seq<Byte>)
    requires dev in t && t[dev].pubKey == Base64.Encode(k, true) && |k| == PUBLIC_KEY_SIZE
    ensures MayBeChallenged(t, dev) <==> !t[dev].revoked
    ensures Proves(check, t, dev, nonce, signature) <==> !t[dev].revoked && check(k, nonce, signature)
  {
    DeviceHasItsKey(t, dev, k);
    hide Device, Base64.Encode;
  }

  /** A device without a row does neither. */
  lemma UnknownDevice(check: SignatureCheck, t: Table, dev: string, nonce: seq<Byte>, signature: seq<Byte>)
    requires dev !in t
    ensures !MayBeChallenged(t, dev) && !Proves(check, t, dev, nonce, signature)
  {
  }

  /** A sweep takes away exactly what is more than two minutes past its storing. */
  lemma SweptExactly(p: Pending, now: int, dev: string)
    ensures dev in Swept(p, now) <==> dev in p && now <= p[dev].expiresAt
    ensures dev in Swept(p, now) ==> Swept(p, now)[dev] == p[dev]
  {
  }

  class DeviceAuthenticator {
    var pending: Pending

    constructor ()
      ensures pending == map[]
    {
      pending := map[];
    }

    /** sweepLocked: one pass over the map, deleting what is stale. */
    method Sweep(now: int)
      modifies this
      ensures pending == Swept(old(pending), now)
    {
      var todo := pending.Keys;
      while todo != {}
        invariant todo <= old(pending).Keys
        invariant pending == map d | d in old(pending) && (d in todo || !Stale(old(pending)[d], now)) :: old(pending)[d]
        decreases |todo|
      {
        var d :| d in todo;
        if Stale(pending[d], now) {
          pending := pending - {d};
        }
        todo := todo - {d};
      }
    }

    /** `looked` is the table when the device was looked up, before the lock. */
    method IssueChallenge(looked: Table, dev: string, nonce: seq<Byte>, now: int)
      modifies this
      ensures pending == if MayBeChallenged(looked, dev)
                         then StoreChallenge(old(pending), dev, nonce, now, true) else old(pending)
    {
      var d := Device(looked, dev);
      if d.Absent? || d.revoked {
        return;
      }
      Sweep(now);
      pending := pending[dev := Challenge(nonce, now + CHALLENGE_TTL)];
    }

    /** `looked` is the table when the device is looked up, after the lock. */
    method Verify(check: SignatureCheck, looked: Table, dev: string, signature: seq<Byte>, now: int)
      returns (ok: bool)
      modifies this
      ensures var (p, c) := TakeChallenge(old(pending), dev, now);
        pending == p && (ok <==> c.Some? && Proves(check, looked, dev, c.value.nonce, signature))
    {
      if dev !in pending {
        return false;
      }
      var pc := pending[dev];
      pending := pending - {dev};
      if now > pc.expiresAt {
        return false;
      }
      var d := Device(looked, dev);
      if d.Absent? || d.revoked {
        return false;
      }
      return check(d.key, pc.nonce, signature);
    }
  }
}
