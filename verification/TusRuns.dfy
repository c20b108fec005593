/** The client's dialogue is a run of the protocol, and what follows for its success. */
module TusRuns {
  import opened Wrappers
  import opened Text
  import U = Uploads
  import opened TusProtocol
  import TusSafety
  import opened TusClient

  // ---- The run behind a dialogue ---------------------------------------------------------

  function AskOf(r: Request): Event {
    match r
    case Patch(offset, data) => Sends(offset, offset + |data|)
    case Head(_) => Asks
  }

  function Doings(acts: seq<Act>): (es: seq<Event>)
    ensures |es| == |acts| && forall k :: 0 <= k < |acts| ==> es[k] == Does(acts[k])
  {
    if acts == [] then [] else [Does(acts[0])] + Doings(acts[1..])
  }

  /** The requests in order, and after the n-th what the schedule says. */
  function Script(sent: seq<Request>, schedule: seq<Window>): seq<Event> {
    if sent == [] then []
    else
      var n := |sent| - 1;
      Script(sent[..n], schedule) + ([AskOf(sent[n])] + Doings(ActsAt(schedule, n)))
  }

  /** What is heard of the n-th request: the scheduled reply, if the run had produced it
      for this request by then. */
  function HeardOf(cfg: Config, s0: Sys, sent: seq<Request>, schedule: seq<Window>, n: nat): Option<Reply>
    requires cfg.server.roots != [] && n < |sent|
  {
    var s := Run(cfg, s0, Script(sent[..n + 1], schedule));
    if n < |schedule| && schedule[n].delivery.Some? && (n, schedule[n].delivery.value) in s.replies
    then schedule[n].delivery else None
  }

  /** State and answers are those of the scheduled run. */
  ghost predicate Follows(cfg: Config, s0: Sys, schedule: seq<Window>, s: Sys, heard: seq<Option<Reply>>)
    requires cfg.server.roots != []
  {
    && s == Run(cfg, s0, Script(s.sent, schedule))
    && |heard| == |s.sent|
    && forall n :: 0 <= n < |heard| ==> heard[n] == HeardOf(cfg, s0, s.sent, schedule, n)
  }

  lemma {:induction false} WorldIsRun(cfg: Config, s: Sys, acts: seq<Act>)
    requires cfg.server.roots != []
    ensures World(cfg, s, acts) == Run(cfg, s, Doings(acts))
    decreases |acts|
  {
    hide Step;
    if acts != [] {
      WorldIsRun(cfg, Step(cfg, s, acts[0]), acts[1..]);
    }
  }

  /** Sending and waiting for the answer goes on with the scheduled run. */
  lemma ExchangeFollows(cfg: Config, s0: Sys, schedule: seq<Window>, s: Sys, heard: seq<Option<Reply>>, sending: Sys)
    requires cfg.server.roots != [] && Follows(cfg, s0, schedule, s, heard)
    requires |sending.sent| == |s.sent| + 1 && sending.sent[..|s.sent|] == s.sent
    requires sending == Happen(cfg, s, AskOf(sending.sent[|s.sent|]))
    ensures var (s', h) := Exchange(cfg, sending, schedule);
      Follows(cfg, s0, schedule, s', heard + [h])
  {
    var n := |s.sent|;
    var acts := ActsAt(schedule, n);
    var ask := AskOf(sending.sent[n]);
    var (s', h) := Exchange(cfg, sending, schedule);
    WorldIsRun(cfg, sending, acts);
    assert s' == World(cfg, sending, acts);
    hide World, Happen;
    TusSafety.RunConcat(cfg, s0, Script(s.sent, schedule), [ask] + Doings(acts));
    assert ([ask] + Doings(acts))[1..] == Doings(acts);
    assert Run(cfg, s, [ask] + Doings(acts)) == Run(cfg, sending, Doings(acts));
    assert s'.sent == sending.sent && s'.sent[..n + 1] == s'.sent;
    hide Run, Script;
    forall k | 0 <= k < n + 1 ensures (heard + [h])[k] == HeardOf(cfg, s0, s'.sent, schedule, k) {
      if k < n {
        assert s'.sent[..k + 1] == s.sent[..k + 1];
      }
    }
  }

  lemma PatchFollows(cfg: Config, s0: Sys, schedule: seq<Window>, s: Sys, heard: seq<Option<Reply>>, from: nat, to: nat)
    requires cfg.server.roots != [] && Follows(cfg, s0, schedule, s, heard) && from < to <= |cfg.bytes|
    ensures var (s', h) := Exchange(cfg, SendPatch(cfg, s, from, to), schedule);
      Follows(cfg, s0, schedule, s', heard + [h])
  {
    hide Follows, Exchange;
    ExchangeFollows(cfg, s0, schedule, s, heard, SendPatch(cfg, s, from, to));
  }

  lemma HeadFollows(cfg: Config, s0: Sys, schedule: seq<Window>, s: Sys, heard: seq<Option<Reply>>)
    requires cfg.server.roots != [] && Follows(cfg, s0, schedule, s, heard)
    ensures var (s', h) := Exchange(cfg, SendHead(cfg, s), schedule);
      Follows(cfg, s0, schedule, s', heard + [h])
  {
    hide Follows, Exchange;
    ExchangeFollows(cfg, s0, schedule, s, heard, SendHead(cfg, s));
  }

  /** A dialogue that starts in the scheduled run ends in it. */
  lemma {:induction false} DialogueFollows(cfg: Config, s0: Sys, chunk: nat, maxAttempts: nat, schedule: seq<Window>, s: Sys,
                                          heard: seq<Option<Reply>>, offset: nat, attempt: nat)
    requires cfg.server.roots != [] && chunk > 0 && |heard| == |s.sent| && attempt <= maxAttempts + 1
    requires Follows(cfg, s0, schedule, s, heard)
    ensures var (_, s', heard') := Dialogue(cfg, chunk, maxAttempts, schedule, s, heard, offset, attempt);
      Follows(cfg, s0, schedule, s', heard')
    decreases if |heard| <= |schedule| then |schedule| - |heard| else 0, maxAttempts + 1 - attempt
  {
    hide Follows, Exchange, VerifyChecksum;
    if attempt > maxAttempts {
    } else if offset >= |cfg.bytes| {
      DialogueFollows(cfg, s0, chunk, maxAttempts, schedule, s, heard, offset, attempt + 1);
    } else {
      var end := U.Min(offset + chunk, |cfg.bytes|);
      PatchFollows(cfg, s0, schedule, s, heard, offset, end);
      var (s1, h) := Exchange(cfg, SendPatch(cfg, s, offset, end), schedule);
      if !Accepted(h) {
        HeadFollows(cfg, s0, schedule, s1, heard + [h]);
        var (s2, g) := Exchange(cfg, SendHead(cfg, s1), schedule);
        if g.Some? && g.value.Size? {
          DialogueFollows(cfg, s0, chunk, maxAttempts, schedule, s2, heard + [h] + [g], g.value.size, attempt + 1);
        }
      } else if h.value.offset < |cfg.bytes| {
        DialogueFollows(cfg, s0, chunk, maxAttempts, schedule, s1, heard + [h], h.value.offset, attempt);
      }
    }
  }

  lemma {:induction false} ScriptIsTame(cfg: Config, sent: seq<Request>, schedule: seq<Window>)
    requires cfg.server.roots != [] && TameSchedule(cfg, schedule)
    ensures TameEvents(cfg, Script(sent, schedule))
  {
    hide TameAct;
    if sent != [] {
      ScriptIsTame(cfg, sent[..|sent| - 1], schedule);
    }
  }
}
