/** The middleware in front of the handlers: device check, step-up check, tickets. */
module Router {
  import opened Wrappers
  import opened Text
  import Base64
  import D = Devices
  import A = DeviceAuth
  import S = StepUp
  import T = Tickets

  datatype Request = Request(path: string, deviceId: string, signature: string, ticket: string)

  const STREAM: string := "/stream"

  /** strings.HasSuffix(path, "/stream"). */
  predicate IsStream(path: string) {
    |STREAM| <= |path| && path[|path| - |STREAM|..] == STREAM
  }

  /** RequireDevice: what becomes of the challenges, and the device let through. */
  function DeviceChecked(check: A.SignatureCheck, looked: D.Table, p: A.Pending, r: Request, now: int)
    : (A.Pending, Option<string>)
  {
    var signature := Base64.Decode(r.signature, true);
    if r.deviceId == "" || r.signature == "" || signature.None? then (p, None)
    else
      var (p', c) := A.TakeChallenge(p, r.deviceId, now);
      (p', if c.Some? && A.Proves(check, looked, r.deviceId, c.value.nonce, signature.value) then Some(r.deviceId) else None)
  }

  /** RequireStepUp, for the device the context names, if any. */
  function StepUpChecked(g: S.Grants, dev: Option<string>, action: string, now: int): (S.Grants, bool) {
    if dev.None? then (g, false)
    else if !S.RequiresStepUp(action) then (g, true)
    else
      var (g', answer) := S.Consumed(g, dev.value, action, now);
      (g', answer == S.Served)
  }

  class Router {
    const auth: A.DeviceAuthenticator
    const gate: S.StepUpGate
    const tickets: T.TicketStore

    constructor (auth: A.DeviceAuthenticator, gate: S.StepUpGate, tickets: T.TicketStore)
      ensures this.auth == auth && this.gate == gate && this.tickets == tickets
    {
      this.auth, this.gate, this.tickets := auth, gate, tickets;
    }

    method RequireDevice(check: A.SignatureCheck, looked: D.Table, r: Request, now: int) returns (dev: Option<string>)
      modifies auth
      ensures (auth.pending, dev) == DeviceChecked(check, looked, old(auth.pending), r, now)
    {
      if r.deviceId == "" || r.signature == "" {
        return None;
      }
      var signature := Base64.Decode(r.signature, true);
      if signature.None? {
        return None;
      }
      var ok := auth.Verify(check, looked, r.deviceId, signature.value, now);
      return if ok then Some(r.deviceId) else None;
    }

    method RequireStepUp(dev: Option<string>, action: string, now: int) returns (ok: bool)
      modifies gate
      ensures (gate.grants, ok) == StepUpChecked(old(gate.grants), dev, action, now)
    {
      if dev.None? {
        return false;
      }
      if !S.RequiresStepUp(action) {
        return true;
      }
      var answer := gate.Consume(dev.value, action, now);
      return answer == S.Served;
    }

    /** wrapSessionAuth: the stream takes a ticket, everything else the device check. */
    method Sessions(check: A.SignatureCheck, looked: D.Table, r: Request, now: int) returns (reached: bool)
      modifies auth, tickets
      ensures IsStream(r.path) ==>
        && auth.pending == old(auth.pending)
        && reached == (r.ticket != "" && T.Used(old(tickets.tickets), r.ticket, now).1)
        && tickets.tickets == (if r.ticket == "" then old(tickets.tickets)
                               else T.Used(old(tickets.tickets), r.ticket, now).0)
      ensures !IsStream(r.path) ==>
        && tickets.tickets == old(tickets.tickets)
        && (auth.pending, if reached then Some(r.deviceId) else None)
           == DeviceChecked(check, looked, old(auth.pending), r, now)
    {
      if IsStream(r.path) {
        if r.ticket == "" {
          return false;
        }
        reached := tickets.Consume(r.ticket, now);
      } else {
        var dev := RequireDevice(check, looked, r, now);
        reached := dev.Some?;
      }
    }

    /** The route of handleDevicesRevoke: the device check outside, step-up inside. */
    method RevokeRoute(check: A.SignatureCheck, looked: D.Table, r: Request, now: int, later: int) returns (reached: bool)
      modifies auth, gate
      ensures var (p, dev) := DeviceChecked(check, looked, old(auth.pending), r, now);
        && auth.pending == p
        && (gate.grants, reached) == StepUpChecked(old(gate.grants), dev, S.REVOKE_DEVICE, later)
    {
      var dev := RequireDevice(check, looked, r, now);
      reached := RequireStepUp(dev, S.REVOKE_DEVICE, later);
    }
  }

  /** Whoever is let through had a challenge, in time, and a signature of its nonce
      under the key of an unrevoked row. */
  lemma LetThroughExactly(check: A.SignatureCheck, looked: D.Table, p: A.Pending, r: Request, now: int)
    ensures DeviceChecked(check, looked, p, r, now).1.Some? <==>
      && r.deviceId != "" && Base64.Decode(r.signature, true).Some? && r.signature != ""
      && r.deviceId in p && now <= p[r.deviceId].expiresAt
      && r.deviceId in looked && !looked[r.deviceId].revoked && D.DecodeKey(looked[r.deviceId].pubKey).Some?
      && check(D.DecodeKey(looked[r.deviceId].pubKey).value, p[r.deviceId].nonce, Base64.Decode(r.signature, true).value)
  {
    hide Base64.Decode, D.DecodeKey;
    assert D.Device(looked, r.deviceId).Found? <==> r.deviceId in looked && D.DecodeKey(looked[r.deviceId].pubKey).Some?;
  }

  /** In terms of keys and signatures: a device paired with the text of k is let through
      with the text of a signature exactly when it has a challenge, in time, its row is not
      revoked and the signature checks under k. */
  lemma LetThroughUnderKey(check: A.SignatureCheck, looked: D.Table, p: A.Pending, r: Request, now: int, k: seq<Byte>,
                           signature: seq<Byte>)
    requires r.deviceId != "" && r.signature == Base64.Encode(signature, true) && signature != []
    requires r.deviceId in looked && looked[r.deviceId].pubKey == Base64.Encode(k, true) && |k| == D.PUBLIC_KEY_SIZE
    ensures DeviceChecked(check, looked, p, r, now).1 == Some(r.deviceId) <==>
      && r.deviceId in p && now <= p[r.deviceId].expiresAt && !looked[r.deviceId].revoked
      && check(k, p[r.deviceId].nonce, signature)
  {
    Base64.RoundTrip(signature, true);
    D.KeyIsRead(k);
    LetThroughExactly(check, looked, p, r, now);
    hide Base64.Encode, Base64.Decode, D.DecodeKey, A.Proves, A.TakeChallenge;
  }

  /** The stream is every path that ends in "/stream". */
  lemma StreamExactly(path: string)
    ensures IsStream(path) <==> exists x: string :: path == x + STREAM
  {
    if IsStream(path) {
      assert path == path[..|path| - |STREAM|] + STREAM;
    }
    if exists x: string :: path == x + STREAM {
      var x: string :| path == x + STREAM;
      assert path[|path| - |STREAM|..] == STREAM;
    }
  }

  /** Every action needs a grant, known or not; it serves the device and action it was
      given for, at most five minutes later; without a device nothing is served. */
  lemma ServedExactly(g: S.Grants, dev: string, action: string, granted: int, used: int, unknown: string)
    ensures S.RequiresStepUp(unknown)
    ensures S.GrantKey(dev, action) !in g ==> !StepUpChecked(g, Some(dev), action, used).1
    ensures StepUpChecked(S.Granted(g, dev, action, granted), Some(dev), action, used).1 <==> used <= granted + 300 * S.SECOND
    ensures StepUpChecked(g, None, action, used) == (g, false)
  {
    EveryActionNeeds(action);
    EveryActionNeeds(unknown);
    hide S.GrantKey, S.RequiresStepUp;
  }

  lemma EveryActionNeeds(action: string)
    ensures S.RequiresStepUp(action)
  {
  }

  /** A request names one device, and what it holds is gone afterwards, unless there was no
      signature to read; other devices keep what they have. */
  lemma WhatIsLeft(check: A.SignatureCheck, looked: D.Table, p: A.Pending, r: Request, now: int, dev: string)
    ensures var (p', passed) := DeviceChecked(check, looked, p, r, now);
      && (dev in p' ==> dev in p && p'[dev] == p[dev])
      && (dev in p && dev != r.deviceId ==> dev in p')
      && (passed == Some(dev) ==> dev in p && dev !in p')
      && (dev in p && dev == r.deviceId ==>
            (dev in p' <==> dev == "" || r.signature == "" || Base64.Decode(r.signature, true).None?))
  {
    LetThroughExactly(check, looked, p, r, now);
    hide Base64.Decode, A.Proves;
  }

  // ---- Visits with nothing new in between ---------------------------------------------------------

  /** A request to the revoke route, with the table and the clock as they are then. */
  datatype Visit = Visit(looked: D.Table, request: Request, now: int, later: int)

  /** How often a device gets past the device check, and how often to the handler, over
      visits without a new challenge or grant in between. */
  function Passes(check: A.SignatureCheck, p: A.Pending, visits: seq<Visit>, dev: string): nat
    decreases |visits|
  {
    if visits == [] then 0
    else
      var (p', passed) := DeviceChecked(check, visits[0].looked, p, visits[0].request, visits[0].now);
      (if passed == Some(dev) then 1 else 0) + Passes(check, p', visits[1..], dev)
  }

  function Serves(check: A.SignatureCheck, p: A.Pending, g: S.Grants, visits: seq<Visit>, dev: string): nat
    decreases |visits|
  {
    if visits == [] then 0
    else
      var (p', passed) := DeviceChecked(check, visits[0].looked, p, visits[0].request, visits[0].now);
      var (g', served) := StepUpChecked(g, passed, S.REVOKE_DEVICE, visits[0].later);
      (if served && passed == Some(dev) then 1 else 0) + Serves(check, p', g', visits[1..], dev)
  }

  /** One challenge, one pass; one grant, one service; and no service without a pass.
      Whatever the requests, replayed ones included, and whatever the table is. */
  lemma {:induction false} OnceEach(check: A.SignatureCheck, p: A.Pending, g: S.Grants, visits: seq<Visit>, dev: string)
    ensures Passes(check, p, visits, dev) <= (if dev in p then 1 else 0)
    ensures Serves(check, p, g, visits, dev) <= Passes(check, p, visits, dev)
    ensures Serves(check, p, g, visits, dev) <= (if S.GrantKey(dev, S.REVOKE_DEVICE) in g then 1 else 0)
    decreases |visits|
  {
    if visits != [] {
      var v := visits[0];
      var (p', passed) := DeviceChecked(check, v.looked, p, v.request, v.now);
      var (g', served) := StepUpChecked(g, passed, S.REVOKE_DEVICE, v.later);
      WhatIsLeft(check, v.looked, p, v.request, v.now, dev);
      WhatIsGranted(g, passed, v.later, dev);
      hide DeviceChecked, StepUpChecked, S.GrantKey;
      OnceEach(check, p', g', visits[1..], dev);
    }
  }

  /** Grants only go, and one that serves goes. */
  lemma WhatIsGranted(g: S.Grants, passed: Option<string>, now: int, dev: string)
    ensures var (g', served) := StepUpChecked(g, passed, S.REVOKE_DEVICE, now);
      var key := S.GrantKey(dev, S.REVOKE_DEVICE);
      && (key in g' ==> key in g)
      && (served ==> passed.Some?)
      && (served && passed == Some(dev) ==> key in g && key !in g')
  {
    assert S.REVOKE_DEVICE in S.REGISTRY && S.REGISTRY[S.REVOKE_DEVICE];
    hide S.GrantKey;
  }
}
