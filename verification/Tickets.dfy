/** One-time tickets for the WebSocket handshake. */
module Tickets {
  const SECOND: nat := 1_000_000_000
  const TICKET_TTL: nat := 30 * SECOND

  type Tickets = map<string, int>

  function Swept(t: Tickets, now: int): Tickets {
    map k | k in t && !(now > t[k]) :: t[k]
  }

  function SweptIf(t: Tickets, now: int, sweeping: bool): Tickets {
    if sweeping then Swept(t, now) else t
  }

  function Issued(t: Tickets, ticket: string, now: int, sweeping: bool): Tickets {
    SweptIf(t, now, sweeping)[ticket := now + TICKET_TTL]
  }

  function Used(t: Tickets, ticket: string, now: int): (Tickets, bool) {
    if ticket !in t then (t, false) else (t - {ticket}, now < t[ticket])
  }

  /** The sweep takes exactly the tickets whose thirty seconds are over. */
  lemma SweptExactly(t: Tickets, now: int, ticket: string)
    ensures ticket in Swept(t, now) <==> ticket in t && now <= t[ticket]
    ensures ticket in Swept(t, now) ==> Swept(t, now)[ticket] == t[ticket]
    ensures var issued := Issued(t, ticket, now, true);
      ticket in issued && issued[ticket] == now + 30_000_000_000
  {
  }

  /** A ticket opens one stream, within thirty seconds, and other tickets stay. */
  lemma IssuedIsUsedOnce(t: Tickets, ticket: string, issued: int, used: int, again: int, sweeping: bool)
    ensures var t1 := Issued(t, ticket, issued, sweeping);
      var (t2, ok) := Used(t1, ticket, used);
      && (ok <==> used < issued + TICKET_TTL)
      && !Used(t2, ticket, again).1
      && (forall k :: k in t && k != ticket && !(issued > t[k]) ==> k in t2 && t2[k] == t[k])
  {
  }

  class TicketStore {
    var tickets: Tickets

    constructor ()
      ensures tickets == map[]
    {
      tickets := map[];
    }

    method Sweep(now: int)
      modifies this
      ensures tickets == Swept(old(tickets), now)
    {
      var todo := tickets.Keys;
      while todo != {}
        invariant todo <= old(tickets).Keys
        invariant tickets == map k | k in old(tickets) && (k in todo || !(now > old(tickets)[k])) :: old(tickets)[k]
        decreases |todo|
      {
        var k :| k in todo;
        if now > tickets[k] {
          tickets := tickets - {k};
        }
        todo := todo - {k};
      }
    }

    /** issue, for a freshly drawn ticket. */
    method Issue(ticket: string, now: int)
      modifies this
      ensures tickets == Issued(old(tickets), ticket, now, true)
    {
      Sweep(now);
      tickets := tickets[ticket := now + TICKET_TTL];
    }

    /** consume: the ticket is gone either way. */
    method Consume(ticket: string, now: int) returns (ok: bool)
      modifies this
      ensures (tickets, ok) == Used(old(tickets), ticket, now)
    {
      if ticket !in tickets {
        return false;
      }
      var expiry := tickets[ticket];
      tickets := tickets - {ticket};
      return now < expiry;
    }
  }
}
