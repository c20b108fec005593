/** TusUploader.upload: the client's retry and resume loop, run against the
    protocol.

    The world around the client is a schedule: for the n-th request the client
    sends, what the daemon, the network and the other clients do before the client
    hears anything, and which of the replies then produced for this request, if
    any, it hears. A statement for every schedule is a statement for every run. */
module TusClient {
  import opened Wrappers
  import opened Text
  import FileTree
  import U = Uploads
  import opened TusProtocol
  import TusSafety
  import opened Arithmetic

  datatype Window = Window(acts: seq<Act>, delivery: Option<Reply>)

  datatype Outcome = Uploaded(hash: string) | ChecksumMismatch | GaveUp | HeadRefused | NotCreated

  /** Everything that happens around one exchange. */
  function World(cfg: Config, s: Sys, acts: seq<Act>): (s': Sys)
    requires cfg.server.roots != []
    ensures s'.sent == s.sent
    decreases |acts|
  {
    if acts == [] then s
    else
      SentStays(cfg, s, acts[0]);
      World(cfg, Step(cfg, s, acts[0]), acts[1..])
  }

  /** What happens after the n-th request and before the next. */
  function ActsAt(schedule: seq<Window>, n: nat): seq<Act> {
    if n < |schedule| then schedule[n].acts else []
  }

  /** The request just sent, and what the client hears of it: a reply that was
      produced for it, or nothing (a timeout, a broken connection). */
  function Exchange(cfg: Config, s: Sys, schedule: seq<Window>): (r: (Sys, Option<Reply>))
    requires cfg.server.roots != [] && s.sent != []
    ensures r.0.sent == s.sent && (r.1.Some? ==> |s.sent| <= |schedule|)
  {
    var n := |s.sent| - 1;
    if n >= |schedule| then (s, None)
    else
      var s' := World(cfg, s, schedule[n].acts);
      var delivery := schedule[n].delivery;
      (s', if delivery.Some? && (n, delivery.value) in s'.replies then delivery else None)
  }

  /** _patchChunk returns on 204 and on 422. */
  predicate Accepted(reply: Option<Reply>) {
    reply.Some? && (reply.value.Written? || reply.value.Finished? || reply.value.Mismatched?)
  }

  // ---- Counting over the history -----------------------------------------------------

  /** PATCH requests sent. */
  function Patches(sent: seq<Request>): nat {
    if sent == [] then 0
    else Patches(sent[..|sent| - 1]) + if sent[|sent| - 1].Patch? then 1 else 0
  }

  /** Body bytes of the PATCH requests sent. */
  function BodyBytes(sent: seq<Request>): nat {
    if sent == [] then 0
    else
      var last := sent[|sent| - 1];
      BodyBytes(sent[..|sent| - 1]) + if last.Patch? then |last.data| else 0
  }

  predicate PatchFailed(r: Request, heard: Option<Reply>) {
    r.Patch? && !Accepted(heard)
  }

  predicate HeadFailed(r: Request, heard: Option<Reply>) {
    r.Head? && !(heard.Some? && heard.value.Size?)
  }

  /** A HEAD that found every byte stored already. */
  predicate HeadFull(length: nat, r: Request, heard: Option<Reply>) {
    r.Head? && heard.Some? && heard.value.Size? && heard.value.size >= length
  }

  /** PATCH requests without a 204 or 422 heard. */
  function FailedPatches(sent: seq<Request>, heard: seq<Option<Reply>>): nat
    requires |heard| == |sent|
  {
    if sent == [] then 0
    else
      var k := |sent| - 1;
      FailedPatches(sent[..k], heard[..k]) + if PatchFailed(sent[k], heard[k]) then 1 else 0
  }

  ghost predicate EveryHeadHeard(sent: seq<Request>, heard: seq<Option<Reply>>)
    requires |heard| == |sent|
  {
    forall n :: 0 <= n < |sent| ==> !HeadFailed(sent[n], heard[n])
  }

  ghost predicate NoHeadFull(length: nat, sent: seq<Request>, heard: seq<Option<Reply>>)
    requires |heard| == |sent|
  {
    forall n :: 0 <= n < |sent| ==> !HeadFull(length, sent[n], heard[n])
  }

  lemma CountsAppend(sent: seq<Request>, r: Request, heard: seq<Option<Reply>>, h: Option<Reply>)
    requires |heard| == |sent|
    ensures Patches(sent + [r]) == Patches(sent) + if r.Patch? then 1 else 0
    ensures BodyBytes(sent + [r]) == BodyBytes(sent) + if r.Patch? then |r.data| else 0
    ensures FailedPatches(sent + [r], heard + [h])
         == FailedPatches(sent, heard) + if PatchFailed(r, h) then 1 else 0
  {
    assert (sent + [r])[..|sent|] == sent && (heard + [h])[..|heard|] == heard;
  }

  // ---- What the client may rely on -----------------------------------------------------

  /** The replies the client heard were produced. */
  ghost predicate Honest(s: Sys, heard: seq<Option<Reply>>) {
    && |heard| == |s.sent|
    && forall n :: 0 <= n < |heard| && heard[n].Some? ==> (n, heard[n].value) in s.replies
  }

  /** Between two requests. `chunk` bytes were paid for each PATCH that failed, and
      every other one moved the offset by a full chunk. */
  ghost predicate Ready(cfg: Config, chunk: nat, s: Sys, heard: seq<Option<Reply>>, offset: nat) {
    && Inv(cfg, s) && Honest(s, heard)
    && offset <= |cfg.bytes| && Reached(cfg, s, offset)
    && EveryHeadHeard(s.sent, heard)
    && var failed := FailedPatches(s.sent, heard);
    && failed <= Patches(s.sent)
    && (Patches(s.sent) - failed) * chunk <= offset
    && BodyBytes(s.sent) <= offset + failed * chunk
  }

  /** No step of the world follows a link into the upload directory. */
  ghost predicate TameSchedule(cfg: Config, schedule: seq<Window>)
    requires cfg.server.roots != []
  {
    forall n, k :: 0 <= n < |schedule| && 0 <= k < |schedule[n].acts| ==> TameAct(cfg, schedule[n].acts[k])
  }

  lemma {:induction false} WorldKeeps(cfg: Config, s: Sys, acts: seq<Act>)
    requires WellFormed(cfg) && Inv(cfg, s) && forall k :: 0 <= k < |acts| ==> TameAct(cfg, acts[k])
    ensures Inv(cfg, World(cfg, s, acts)) && Grows(cfg, s, World(cfg, s, acts))
    ensures World(cfg, s, acts).sent == s.sent
    decreases |acts|
  {
    if acts != [] {
      TusSafety.StepKeeps(cfg, s, acts[0]);
      SentStays(cfg, s, acts[0]);
      WorldKeeps(cfg, Step(cfg, s, acts[0]), acts[1..]);
      TusSafety.GrowsTransitive(cfg, s, Step(cfg, s, acts[0]), World(cfg, s, acts));
    }
  }

  lemma SentStays(cfg: Config, s: Sys, act: Act)
    requires cfg.server.roots != []
    ensures Step(cfg, s, act).sent == s.sent
  {
  }

  lemma ExchangeKeeps(cfg: Config, s: Sys, schedule: seq<Window>)
    requires WellFormed(cfg) && Inv(cfg, s) && s.sent != [] && TameSchedule(cfg, schedule)
    ensures var (s', heard) := Exchange(cfg, s, schedule);
      && Inv(cfg, s') && Grows(cfg, s, s') && s'.sent == s.sent
      && (heard.Some? ==> (|s.sent| - 1, heard.value) in s'.replies)
  {
    var n := |s.sent| - 1;
    if n < |schedule| {
      WorldKeeps(cfg, s, schedule[n].acts);
    }
  }

  lemma HonestGrows(s: Sys, s': Sys, heard: seq<Option<Reply>>, h: Option<Reply>)
    requires Honest(s, heard) && |s'.sent| == |s.sent| + 1 && s.replies <= s'.replies
    requires h.Some? ==> (|s.sent|, h.value) in s'.replies
    ensures Honest(s', heard + [h])
  {
  }

  lemma ReachedStays(cfg: Config, s: Sys, s': Sys, n: nat)
    requires Reached(cfg, s, n) && Grows(cfg, s, s')
    ensures Reached(cfg, s', n)
  {
    hide U.Part;
  }

  /** What one PATCH comes to on the other side and on the way back. */
  lemma PatchEffect(cfg: Config, chunk: nat, s: Sys, heard: seq<Option<Reply>>, offset: nat,
                    end: nat, schedule: seq<Window>)
    requires WellFormed(cfg) && Ready(cfg, chunk, s, heard, offset) && TameSchedule(cfg, schedule)
    requires offset < end <= |cfg.bytes|
    ensures var (s', h) := Exchange(cfg, SendPatch(cfg, s, offset, end), schedule);
      && Inv(cfg, s') && Honest(s', heard + [h]) && Grows(cfg, s, s') && Reached(cfg, s', offset)
      && s'.sent == s.sent + [Patch(offset, cfg.bytes[offset..end])]
      && (Accepted(h) ==> h.value.offset == end)
      && (Accepted(h) && end < |cfg.bytes| ==> h.value.Written? && Reached(cfg, s', end))
      && (Accepted(h) && end == |cfg.bytes| ==>
            h.value.Finished? && h.value.sum == cfg.server.hash(cfg.bytes) && s'.published != [])
  {
    var r := Patch(offset, cfg.bytes[offset..end]);
    var s1 := SendPatch(cfg, s, offset, end);
    TusSafety.SendKeeps(cfg, s, r);
    ExchangeKeeps(cfg, s1, schedule);
    var (s', h) := Exchange(cfg, s1, schedule);
    hide Exchange;
    TusSafety.GrowsTransitive(cfg, s, s1, s');
    HonestGrows(s, s', heard, h);
    ReachedStays(cfg, s, s', offset);
    hide U.Part, U.LoadState, Patches, BodyBytes, FailedPatches;
    if h.Some? {
      assert ReplyOk(cfg, s', |s.sent|, h.value);
    }
  }

  /** The books after a PATCH: accepted, it is paid for by the bytes it moved;
      otherwise by one more failure. */
  lemma PatchBooks(cfg: Config, chunk: nat, s: Sys, heard: seq<Option<Reply>>, offset: nat,
                   end: nat, s': Sys, h: Option<Reply>)
    requires Ready(cfg, chunk, s, heard, offset)
    requires offset < end <= offset + chunk && end <= |cfg.bytes|
    requires s'.sent == s.sent + [Patch(offset, cfg.bytes[offset..end])]
    requires Inv(cfg, s') && Honest(s', heard + [h])
    ensures !Accepted(h) && Reached(cfg, s', offset) ==> Ready(cfg, chunk, s', heard + [h], offset)
    ensures Accepted(h) && Reached(cfg, s', end) && end == offset + chunk ==>
              Ready(cfg, chunk, s', heard + [h], end)
    ensures EveryHeadHeard(s'.sent, heard + [h])
    ensures NoHeadFull(|cfg.bytes|, s'.sent, heard + [h]) <==> NoHeadFull(|cfg.bytes|, s.sent, heard)
    ensures FailedPatches(s'.sent, heard + [h])
         == FailedPatches(s.sent, heard) + if Accepted(h) then 0 else 1
  {
    hide Inv, Reached, Patches, BodyBytes, FailedPatches;
    var r := s'.sent[|s.sent|];
    CountsAppend(s.sent, r, heard, h);
    HeadsAppend(s.sent, r, heard, h, |cfg.bytes|);
    var failed := FailedPatches(s.sent, heard);
    AddChunk(Patches(s.sent) - failed, chunk);
    AddChunk(failed, chunk);
  }

  lemma AddChunk(k: nat, chunk: nat)
    ensures (k + 1) * chunk == k * chunk + chunk
  {
  }

  lemma HeadsAppend(sent: seq<Request>, r: Request, heard: seq<Option<Reply>>, h: Option<Reply>, length: nat)
    requires |heard| == |sent|
    ensures EveryHeadHeard(sent + [r], heard + [h]) <==> EveryHeadHeard(sent, heard) && !HeadFailed(r, h)
    ensures NoHeadFull(length, sent + [r], heard + [h])
       <==> NoHeadFull(length, sent, heard) && !HeadFull(length, r, h)
  {
    var sent', heard' := sent + [r], heard + [h];
    assert forall n :: 0 <= n < |sent| ==> sent'[n] == sent[n] && heard'[n] == heard[n];
    assert sent'[|sent|] == r && heard'[|sent|] == h;
  }

  /** What one HEAD comes to on the other side and on the way back: answered, it
      never sends the client back. */
  lemma HeadEffect(cfg: Config, chunk: nat, s: Sys, heard: seq<Option<Reply>>, offset: nat, schedule: seq<Window>)
    requires WellFormed(cfg) && Ready(cfg, chunk, s, heard, offset) && TameSchedule(cfg, schedule)
    ensures var (s', h) := Exchange(cfg, SendHead(cfg, s), schedule);
      && Inv(cfg, s') && Honest(s', heard + [h])
      && |s'.sent| == |s.sent| + 1 && s'.sent[..|s.sent|] == s.sent && s'.sent[|s.sent|].Head?
      && (h.Some? && h.value.Size? ==>
            offset <= h.value.size <= |cfg.bytes| && Reached(cfg, s', h.value.size))
  {
    var part := PartOf(cfg, s);
    var r := Head(if part.None? then None else Some(|part.value|));
    var s1 := SendHead(cfg, s);
    TusSafety.SendKeeps(cfg, s, r);
    ExchangeKeeps(cfg, s1, schedule);
    var (s', h) := Exchange(cfg, s1, schedule);
    hide Exchange, U.Part, U.LoadState, Patches, BodyBytes, FailedPatches, EveryHeadHeard;
    HonestGrows(s, s', heard, h);
    if h.Some? {
      assert ReplyOk(cfg, s', |s.sent|, h.value);
    }
  }

  lemma HeadExchange(cfg: Config, chunk: nat, s: Sys, heard: seq<Option<Reply>>, offset: nat,
                     schedule: seq<Window>)
    requires WellFormed(cfg) && Ready(cfg, chunk, s, heard, offset) && TameSchedule(cfg, schedule)
    ensures var (s', h) := Exchange(cfg, SendHead(cfg, s), schedule);
      && Inv(cfg, s') && Honest(s', heard + [h])
      && |s'.sent| == |s.sent| + 1 && s'.sent[..|s.sent|] == s.sent && s'.sent[|s.sent|].Head?
      && (h.Some? && h.value.Size? ==> Ready(cfg, chunk, s', heard + [h], h.value.size))
  {
    HeadEffect(cfg, chunk, s, heard, offset, schedule);
    var (s', h) := Exchange(cfg, SendHead(cfg, s), schedule);
    hide Exchange, Inv, Reached, SendHead, Patches, BodyBytes, FailedPatches;
    var r := s'.sent[|s.sent|];
    assert s'.sent == s.sent + [r];
    CountsAppend(s.sent, r, heard, h);
    HeadsAppend(s.sent, r, heard, h, |cfg.bytes|);
  }

  /** ceil(length / chunk). */
  function Chunks(length: nat, chunk: nat): nat
    requires chunk > 0
  {
    (length + chunk - 1) / chunk
  }

  lemma ChunksEnough(k: nat, length: nat, chunk: nat)
    requires chunk > 0
    ensures k * chunk <= length ==> k <= Chunks(length, chunk)
    ensures k * chunk < length ==> k + 1 <= Chunks(length, chunk)
  {
    var q := Chunks(length, chunk);
    assert length + chunk - 1 < (q + 1) * chunk by {
      assert (length + chunk - 1) % chunk < chunk;
    }
    AddChunk(q, chunk);
    if k * chunk <= length && k > q {
      MulMonotone(q + 1, k, chunk);
    }
    if k * chunk < length && k >= q {
      MulMonotone(q, k, chunk);
    }
  }

  // ---- The upload loop ---------------------------------------------------------------------

  /** _verifyChecksum: the server's hash must be there and be the local one, and the
      status 204. */
  function VerifyChecksum(finishing: Reply, localHash: string): Outcome {
    if finishing.Finished? && EqualFold(finishing.sum, localHash) then Uploaded(finishing.sum) else ChecksumMismatch
  }

  /** The hash is believed exactly if it came with the completing answer and is the local
      one, the case of letters aside. */
  lemma ChecksumExactly(finishing: Reply, localHash: string)
    ensures VerifyChecksum(finishing, localHash).Uploaded? <==> finishing.Finished? && SameText(finishing.sum, localHash)
    ensures VerifyChecksum(finishing, localHash) in {ChecksumMismatch, Uploaded(if finishing.Finished? then finishing.sum else "")}
  {
    if finishing.Finished? {
      EqualFoldExactly(finishing.sum, localHash);
    }
    hide EqualFold, SameText;
  }

  type History = (Outcome, Sys, seq<Option<Reply>>)

  /** The client from the point where `offset` bytes count as stored and `attempt` is
      under way, to its end: what it returns, where that leaves the world, and what it
      heard of each request. Nothing in it is free but the schedule. */
  function Dialogue(cfg: Config, chunk: nat, maxAttempts: nat, schedule: seq<Window>, s: Sys,
                    heard: seq<Option<Reply>>, offset: nat, attempt: nat): History
    requires cfg.server.roots != [] && chunk > 0 && |heard| == |s.sent| && attempt <= maxAttempts + 1
    decreases if |heard| <= |schedule| then |schedule| - |heard| else 0, maxAttempts + 1 - attempt, 1
  {
    if attempt > maxAttempts then (GaveUp, s, heard)
    else if offset >= |cfg.bytes| then Dialogue(cfg, chunk, maxAttempts, schedule, s, heard, offset, attempt + 1)
    else
      var (s1, h) := Exchange(cfg, SendPatch(cfg, s, offset, U.Min(offset + chunk, |cfg.bytes|)), schedule);
      if !Accepted(h) then Resume(cfg, chunk, maxAttempts, schedule, s1, heard + [h], attempt)
      else if h.value.offset >= |cfg.bytes| then (VerifyChecksum(h.value, cfg.server.hash(cfg.bytes)), s1, heard + [h])
      else Dialogue(cfg, chunk, maxAttempts, schedule, s1, heard + [h], h.value.offset, attempt)
  }

  /** After a failed PATCH: ask where to go on, and do, or give up with it. */
  function Resume(cfg: Config, chunk: nat, maxAttempts: nat, schedule: seq<Window>, s: Sys,
                  heard: seq<Option<Reply>>, attempt: nat): History
    requires cfg.server.roots != [] && chunk > 0 && |heard| == |s.sent| && attempt <= maxAttempts
    decreases if |heard| <= |schedule| then |schedule| - |heard| else 0, maxAttempts + 1 - attempt, 0
  {
    var (s1, h) := Exchange(cfg, SendHead(cfg, s), schedule);
    if !(h.Some? && h.value.Size?) then (HeadRefused, s1, heard + [h])
    else Dialogue(cfg, chunk, maxAttempts, schedule, s1, heard + [h], h.value.size, attempt + 1)
  }

  /** The chunks of one attempt, until one fails or the file is through. */
  method SendChunks(cfg: Config, chunk: nat, schedule: seq<Window>, s0: Sys, heard0: seq<Option<Reply>>, offset0: nat,
                    ghost maxAttempts: nat, ghost attempt: nat)
    returns (s: Sys, heard: seq<Option<Reply>>, offset: nat, finishing: Option<Reply>, failed: bool)
    requires WellFormed(cfg) && TameSchedule(cfg, schedule) && chunk > 0 && Ready(cfg, chunk, s0, heard0, offset0)
    requires attempt <= maxAttempts
    ensures |heard| == |s.sent|
    ensures Dialogue(cfg, chunk, maxAttempts, schedule, s0, heard0, offset0, attempt)
         == if finishing.Some? then (VerifyChecksum(finishing.value, cfg.server.hash(cfg.bytes)), s, heard)
            else if failed then Resume(cfg, chunk, maxAttempts, schedule, s, heard, attempt)
            else Dialogue(cfg, chunk, maxAttempts, schedule, s, heard, offset, attempt)
    ensures Inv(cfg, s) && Honest(s, heard) && EveryHeadHeard(s.sent, heard)
    ensures NoHeadFull(|cfg.bytes|, s.sent, heard) <==> NoHeadFull(|cfg.bytes|, s0.sent, heard0)
    ensures finishing.None? ==> Ready(cfg, chunk, s, heard, offset)
    ensures failed ==> finishing.None?
    ensures FailedPatches(s.sent, heard) == FailedPatches(s0.sent, heard0) + if failed then 1 else 0
    ensures !failed && offset0 < |cfg.bytes| ==> finishing.Some?
    ensures offset0 == |cfg.bytes| ==> !failed && finishing.None? && offset == |cfg.bytes|
    ensures finishing.Some? ==>
      && finishing.value == Finished(|cfg.bytes|, cfg.server.hash(cfg.bytes)) && s.published != []
      && Paid(cfg, chunk, s, heard)
  {
    assert cfg.server.roots != [];
    hide TameSchedule, Inv, Reached, EveryHeadHeard, NoHeadFull, Patches, BodyBytes, FailedPatches, PatchFailed,
      HeadFailed, HeadFull, Paid, Chunks, Exchange, U.RootsApart, U.ValidUploadId;
    s, heard, offset, finishing, failed := s0, heard0, offset0, None, false;
    var length := |cfg.bytes|;
    ghost var whole := Dialogue(cfg, chunk, maxAttempts, schedule, s0, heard0, offset0, attempt);
    hide Dialogue, Resume;
    while offset < length && !failed
      invariant |heard| == |s.sent|
      invariant whole
        == if finishing.Some? then (VerifyChecksum(finishing.value, cfg.server.hash(cfg.bytes)), s, heard)
           else if failed then Resume(cfg, chunk, maxAttempts, schedule, s, heard, attempt)
           else Dialogue(cfg, chunk, maxAttempts, schedule, s, heard, offset, attempt)
      invariant offset <= length && Inv(cfg, s) && Honest(s, heard)
      invariant EveryHeadHeard(s.sent, heard)
      invariant NoHeadFull(length, s0.sent, heard0) <==> NoHeadFull(length, s.sent, heard)
      invariant finishing.None? ==> Ready(cfg, chunk, s, heard, offset)
      invariant failed ==> finishing.None?
      invariant FailedPatches(s.sent, heard) == FailedPatches(s0.sent, heard0) + if failed then 1 else 0
      invariant offset == length && offset0 < length ==> finishing.Some?
      invariant finishing.Some? ==> offset == length > offset0
      invariant offset0 == length ==> offset == length && !failed
      invariant finishing.Some? ==>
        && finishing.value == Finished(length, cfg.server.hash(cfg.bytes)) && s.published != []
        && Paid(cfg, chunk, s, heard)
      decreases length - offset, !failed
    {
      var end := U.Min(offset + chunk, length);
      ghost var before, heardBefore := s, heard;
      DialogueStep(cfg, chunk, maxAttempts, schedule, s, heard, offset, attempt);
      PatchEffect(cfg, chunk, s, heard, offset, end, schedule);
      var (s1, reply) := Exchange(cfg, SendPatch(cfg, s, offset, end), schedule);
      s, heard := s1, heard + [reply];
      PatchBooks(cfg, chunk, before, heardBefore, offset, end, s, reply);
      if Accepted(reply) {
        if end == length {
          LastChunkPaid(cfg, chunk, before, heardBefore, offset, end, s, reply);
        }
        offset := reply.value.offset;
        if offset >= length {
          finishing := reply;
        }
      } else {
        failed := true;
      }
    }
  }

  /** One PATCH of the dialogue. */
  lemma DialogueStep(cfg: Config, chunk: nat, maxAttempts: nat, schedule: seq<Window>, s: Sys,
                     heard: seq<Option<Reply>>, offset: nat, attempt: nat)
    requires cfg.server.roots != [] && chunk > 0 && |heard| == |s.sent| && attempt <= maxAttempts
    requires offset < |cfg.bytes|
    ensures var (s1, h) := Exchange(cfg, SendPatch(cfg, s, offset, U.Min(offset + chunk, |cfg.bytes|)), schedule);
      Dialogue(cfg, chunk, maxAttempts, schedule, s, heard, offset, attempt)
      == if !Accepted(h) then Resume(cfg, chunk, maxAttempts, schedule, s1, heard + [h], attempt)
         else if h.value.offset >= |cfg.bytes| then (VerifyChecksum(h.value, cfg.server.hash(cfg.bytes)), s1, heard + [h])
         else Dialogue(cfg, chunk, maxAttempts, schedule, s1, heard + [h], h.value.offset, attempt)
  {
    hide Exchange, Resume;
  }

  lemma DialogueOver(cfg: Config, chunk: nat, maxAttempts: nat, schedule: seq<Window>, s: Sys,
                     heard: seq<Option<Reply>>, offset: nat, attempt: nat)
    requires cfg.server.roots != [] && chunk > 0 && |heard| == |s.sent| && attempt == maxAttempts + 1
    ensures Dialogue(cfg, chunk, maxAttempts, schedule, s, heard, offset, attempt) == (GaveUp, s, heard)
  {
  }

  /** The bill at the end: as many accepted PATCHes as the file has chunks, and a
      chunk for every failed one. */
  ghost predicate Paid(cfg: Config, chunk: nat, s: Sys, heard: seq<Option<Reply>>)
    requires chunk > 0
  {
    && |heard| == |s.sent|
    && Patches(s.sent) <= Chunks(|cfg.bytes|, chunk) + FailedPatches(s.sent, heard)
    && BodyBytes(s.sent) <= |cfg.bytes| + FailedPatches(s.sent, heard) * chunk
  }

  lemma LastChunkPaid(cfg: Config, chunk: nat, s: Sys, heard: seq<Option<Reply>>, offset: nat,
                      end: nat, s': Sys, h: Option<Reply>)
    requires chunk > 0 && Ready(cfg, chunk, s, heard, offset)
    requires offset < end <= |cfg.bytes| && Accepted(h)
    requires s'.sent == s.sent + [Patch(offset, cfg.bytes[offset..end])]
    ensures Paid(cfg, chunk, s', heard + [h])
  {
    hide Inv, Reached, Patches, BodyBytes, FailedPatches, Chunks;
    CountsAppend(s.sent, s'.sent[|s.sent|], heard, h);
    ChunksEnough(Patches(s.sent) - FailedPatches(s.sent, heard), |cfg.bytes|, chunk);
  }

  lemma ReadyPaid(cfg: Config, chunk: nat, s: Sys, heard: seq<Option<Reply>>, offset: nat)
    requires chunk > 0 && Ready(cfg, chunk, s, heard, offset)
    ensures Paid(cfg, chunk, s, heard)
  {
    hide Inv, Reached, Patches, BodyBytes, FailedPatches, Chunks;
    ChunksEnough(Patches(s.sent) - FailedPatches(s.sent, heard), |cfg.bytes|, chunk);
  }

  /** The bounds on what an upload sends. */
  ghost predicate Bounded(cfg: Config, chunk: nat, maxAttempts: nat, sent: seq<Request>)
    requires chunk > 0
  {
    && Patches(sent) <= Chunks(|cfg.bytes|, chunk) + maxAttempts
    && BodyBytes(sent) <= |cfg.bytes| + maxAttempts * chunk
  }

  lemma PaidBounded(cfg: Config, chunk: nat, maxAttempts: nat, s: Sys, heard: seq<Option<Reply>>)
    requires chunk > 0 && Paid(cfg, chunk, s, heard) && FailedPatches(s.sent, heard) <= maxAttempts
    ensures Bounded(cfg, chunk, maxAttempts, s.sent)
  {
    hide Patches, BodyBytes, FailedPatches, Chunks;
    MulMonotone(FailedPatches(s.sent, heard), maxAttempts, chunk);
  }

  /** Between two rounds. */
  ghost predicate BetweenRounds(cfg: Config, chunk: nat, s: Sys, heard: seq<Option<Reply>>, offset: nat,
                                finishing: Option<Reply>, rounds: nat)
    requires chunk > 0
  {
    && Inv(cfg, s) && Honest(s, heard) && EveryHeadHeard(s.sent, heard)
    && match finishing
       case None =>
         && Ready(cfg, chunk, s, heard, offset)
         && FailedPatches(s.sent, heard) <= rounds
         && (NoHeadFull(|cfg.bytes|, s.sent, heard) && cfg.bytes != [] ==>
               offset < |cfg.bytes| && FailedPatches(s.sent, heard) == rounds)
         && (!NoHeadFull(|cfg.bytes|, s.sent, heard) ==> offset == |cfg.bytes|)
       case Some(reply) =>
         && cfg.bytes != [] && FailedPatches(s.sent, heard) < rounds
         && NoHeadFull(|cfg.bytes|, s.sent, heard)
         && reply == Finished(|cfg.bytes|, cfg.server.hash(cfg.bytes)) && s.published != []
         && Paid(cfg, chunk, s, heard)
  }

  /** When an upload that was created succeeds. */
  ghost predicate Succeeds(cfg: Config, maxAttempts: nat, sent: seq<Request>, heard: seq<Option<Reply>>)
    requires |heard| == |sent|
  {
    && cfg.bytes != []
    && FailedPatches(sent, heard) < maxAttempts
    && EveryHeadHeard(sent, heard)
    && NoHeadFull(|cfg.bytes|, sent, heard)
  }

  /** After the chunks of a round, one of which failed. */
  ghost predicate ChunkFailed(cfg: Config, chunk: nat, s: Sys, heard: seq<Option<Reply>>, offset: nat, rounds: nat) {
    && Ready(cfg, chunk, s, heard, offset)
    && FailedPatches(s.sent, heard) == rounds + 1
    && NoHeadFull(|cfg.bytes|, s.sent, heard)
  }

  /** Asking where to resume ends the round, or the upload. */
  lemma HeadEndsRound(cfg: Config, chunk: nat, s: Sys, heard: seq<Option<Reply>>, offset: nat, rounds: nat,
                      schedule: seq<Window>)
    requires WellFormed(cfg) && TameSchedule(cfg, schedule) && chunk > 0 && ChunkFailed(cfg, chunk, s, heard, offset, rounds)
    ensures var (s', h) := Exchange(cfg, SendHead(cfg, s), schedule);
      var heard' := heard + [h];
      && (h.Some? && h.value.Size? ==> BetweenRounds(cfg, chunk, s', heard', h.value.size, None, rounds + 1))
      && (!(h.Some? && h.value.Size?) ==>
            && Inv(cfg, s') && Honest(s', heard') && !EveryHeadHeard(s'.sent, heard')
            && Bounded(cfg, chunk, rounds + 1, s'.sent))
  {
    HeadExchange(cfg, chunk, s, heard, offset, schedule);
    ReadyOffset(cfg, chunk, s, heard, offset);
    var (s', h) := Exchange(cfg, SendHead(cfg, s), schedule);
    hide Inv, Reached, Ready, EveryHeadHeard, NoHeadFull, Patches, BodyBytes, FailedPatches, Chunks, Paid, Bounded,
      Exchange, SendHead, U.RootsApart, U.ValidUploadId;
    ReadyPaid(cfg, chunk, s, heard, offset);
    PaidBounded(cfg, chunk, rounds + 1, s, heard);
    HeadBooks(cfg, chunk, rounds + 1, s, heard, s', h);
    if h.Some? && h.value.Size? {
      ReadyOffset(cfg, chunk, s', heard + [h], h.value.size);
    }
  }

  /** One round: chunks until one fails, and then asking where to resume. */
  method SendRound(cfg: Config, chunk: nat, schedule: seq<Window>, s0: Sys, heard0: seq<Option<Reply>>, offset0: nat,
                   ghost maxAttempts: nat, ghost rounds: nat)
    returns (s: Sys, heard: seq<Option<Reply>>, offset: nat, finishing: Option<Reply>, refused: bool)
    requires WellFormed(cfg) && TameSchedule(cfg, schedule) && chunk > 0 && rounds < maxAttempts
    requires BetweenRounds(cfg, chunk, s0, heard0, offset0, None, rounds)
    ensures !refused ==> BetweenRounds(cfg, chunk, s, heard, offset, finishing, rounds + 1)
    ensures refused ==>
      && Inv(cfg, s) && Honest(s, heard) && !EveryHeadHeard(s.sent, heard)
      && Bounded(cfg, chunk, rounds + 1, s.sent)
    ensures |heard| == |s.sent|
    ensures Dialogue(cfg, chunk, maxAttempts, schedule, s0, heard0, offset0, rounds + 1)
         == if refused then (HeadRefused, s, heard)
            else if finishing.Some? then (VerifyChecksum(finishing.value, cfg.server.hash(cfg.bytes)), s, heard)
            else Dialogue(cfg, chunk, maxAttempts, schedule, s, heard, offset, rounds + 2)
  {
    hide TameSchedule, Inv, Ready, EveryHeadHeard, NoHeadFull, Patches, BodyBytes, FailedPatches, Paid, Bounded, Exchange,
      U.ValidUploadId;
    ReadyOffset(cfg, chunk, s0, heard0, offset0);
    var failed;
    s, heard, offset, finishing, failed := SendChunks(cfg, chunk, schedule, s0, heard0, offset0, maxAttempts, rounds + 1);
    refused := false;
    if failed {
      assert ChunkFailed(cfg, chunk, s, heard, offset, rounds);
      HeadEndsRound(cfg, chunk, s, heard, offset, rounds, schedule);
      var (s1, reply) := Exchange(cfg, SendHead(cfg, s), schedule);
      s, heard := s1, heard + [reply];
      refused := !(reply.Some? && reply.value.Size?);
      offset := if refused then offset else reply.value.size;
    }
  }

  lemma BetweenBounded(cfg: Config, chunk: nat, maxAttempts: nat, s: Sys, heard: seq<Option<Reply>>, offset: nat,
                       finishing: Option<Reply>, rounds: nat)
    requires chunk > 0 && BetweenRounds(cfg, chunk, s, heard, offset, finishing, rounds) && rounds <= maxAttempts
    ensures Bounded(cfg, chunk, maxAttempts, s.sent)
  {
    hide Ready, Paid, Bounded;
    if finishing.None? {
      ReadyPaid(cfg, chunk, s, heard, offset);
    }
    PaidBounded(cfg, chunk, maxAttempts, s, heard);
  }

  lemma BoundedMore(cfg: Config, chunk: nat, a: nat, b: nat, sent: seq<Request>)
    requires chunk > 0 && a <= b && Bounded(cfg, chunk, a, sent)
    ensures Bounded(cfg, chunk, b, sent)
  {
    MulMonotone(a, b, chunk);
  }

  /** What the loop leaves comes to success exactly when Succeeds says so. */
  lemma Verdict(cfg: Config, chunk: nat, maxAttempts: nat, s: Sys, heard: seq<Option<Reply>>, offset: nat,
                finishing: Option<Reply>, rounds: nat)
    requires chunk > 0 && BetweenRounds(cfg, chunk, s, heard, offset, finishing, rounds) && rounds <= maxAttempts
    requires finishing.None? ==> rounds == maxAttempts
    ensures Inv(cfg, s) && Honest(s, heard) && Bounded(cfg, chunk, maxAttempts, s.sent)
    ensures finishing.Some? <==> Succeeds(cfg, maxAttempts, s.sent, heard)
    ensures finishing.Some? ==>
      && VerifyChecksum(finishing.value, cfg.server.hash(cfg.bytes)) == Uploaded(cfg.server.hash(cfg.bytes))
      && s.published != []
  {
    BetweenBounded(cfg, chunk, maxAttempts, s, heard, offset, finishing, rounds);
    hide Inv, Ready, Bounded, Paid, EveryHeadHeard, NoHeadFull, FailedPatches, ToLower;
  }

  lemma FirstRound(cfg: Config, chunk: nat, s: Sys)
    requires chunk > 0 && Inv(cfg, s) && s.sent == []
    ensures BetweenRounds(cfg, chunk, s, [], 0, None, 0)
  {
    EmptyBooks(cfg, chunk, 0, s);
    hide Inv, Ready, Patches, BodyBytes, FailedPatches;
    ReadyOffset(cfg, chunk, s, [], 0);
  }

  /** Before the round `attempt`: the books are in order, and the whole dialogue is what
      is left of it from here. */
  ghost predicate Going(cfg: Config, chunk: nat, maxAttempts: nat, schedule: seq<Window>, whole: History, s: Sys,
                        heard: seq<Option<Reply>>, offset: nat, finishing: Option<Reply>, attempt: nat)
    requires cfg.server.roots != [] && chunk > 0
  {
    && |heard| == |s.sent| && 1 <= attempt <= maxAttempts + 1
    && BetweenRounds(cfg, chunk, s, heard, offset, finishing, attempt - 1)
    && whole == (if finishing.Some? then (VerifyChecksum(finishing.value, cfg.server.hash(cfg.bytes)), s, heard)
                 else Dialogue(cfg, chunk, maxAttempts, schedule, s, heard, offset, attempt))
  }

  /** What is known at the end. */
  ghost predicate Ended(cfg: Config, chunk: nat, maxAttempts: nat, whole: History, out: Outcome, s: Sys, heard: seq<Option<Reply>>)
    requires chunk > 0
  {
    && (out, s, heard) == whole
    && Inv(cfg, s) && Honest(s, heard) && Bounded(cfg, chunk, maxAttempts, s.sent)
    && (out.Uploaded? <==> Succeeds(cfg, maxAttempts, s.sent, heard))
    && (out.Uploaded? ==> out.hash == cfg.server.hash(cfg.bytes) && s.published != [])
    && !out.NotCreated?
  }

  lemma FirstGoing(cfg: Config, chunk: nat, maxAttempts: nat, schedule: seq<Window>, s: Sys)
    requires cfg.server.roots != [] && chunk > 0 && Inv(cfg, s) && s.sent == []
    ensures Going(cfg, chunk, maxAttempts, schedule, Dialogue(cfg, chunk, maxAttempts, schedule, s, [], 0, 1), s, [], 0, None, 1)
  {
    FirstRound(cfg, chunk, s);
    hide BetweenRounds, Dialogue, Inv;
  }

  /** The next round; refused, it is the end. */
  method NextRound(cfg: Config, chunk: nat, ghost maxAttempts: nat, schedule: seq<Window>, ghost whole: History, s0: Sys,
                   heard0: seq<Option<Reply>>, offset0: nat, ghost attempt: nat)
    returns (s: Sys, heard: seq<Option<Reply>>, offset: nat, finishing: Option<Reply>, refused: bool)
    requires WellFormed(cfg) && TameSchedule(cfg, schedule) && chunk > 0 && attempt <= maxAttempts
    requires Going(cfg, chunk, maxAttempts, schedule, whole, s0, heard0, offset0, None, attempt)
    ensures !refused ==> Going(cfg, chunk, maxAttempts, schedule, whole, s, heard, offset, finishing, attempt + 1)
    ensures refused ==> Ended(cfg, chunk, maxAttempts, whole, HeadRefused, s, heard)
  {
    hide TameSchedule, Inv, Honest, Succeeds, Bounded, BetweenRounds, Dialogue, Resume, EveryHeadHeard, VerifyChecksum,
      WellFormed;
    s, heard, offset, finishing, refused := SendRound(cfg, chunk, schedule, s0, heard0, offset0, maxAttempts, attempt - 1);
    if refused {
      BoundedMore(cfg, chunk, attempt, maxAttempts, s.sent);
      Unheard(cfg, maxAttempts, s.sent, heard);
    }
  }

  lemma LastGoing(cfg: Config, chunk: nat, maxAttempts: nat, schedule: seq<Window>, whole: History, s: Sys,
                  heard: seq<Option<Reply>>, offset: nat, finishing: Option<Reply>, attempt: nat)
    requires cfg.server.roots != [] && chunk > 0
    requires Going(cfg, chunk, maxAttempts, schedule, whole, s, heard, offset, finishing, attempt)
    requires attempt > maxAttempts || finishing.Some?
    ensures Ended(cfg, chunk, maxAttempts, whole,
                  if finishing.None? then GaveUp else VerifyChecksum(finishing.value, cfg.server.hash(cfg.bytes)), s, heard)
  {
    hide Inv, Honest, Succeeds, Bounded, BetweenRounds, Dialogue, VerifyChecksum;
    Verdict(cfg, chunk, maxAttempts, s, heard, offset, finishing, attempt - 1);
    if finishing.None? {
      DialogueOver(cfg, chunk, maxAttempts, schedule, s, heard, offset, attempt);
    }
  }

  /** The rounds of an upload. */
  method SendRounds(cfg: Config, chunk: nat, maxAttempts: nat, schedule: seq<Window>, s0: Sys)
    returns (out: Outcome, s: Sys, heard: seq<Option<Reply>>)
    requires WellFormed(cfg) && TameSchedule(cfg, schedule) && chunk > 0 && Inv(cfg, s0) && s0.sent == []
    ensures (out, s, heard) == Dialogue(cfg, chunk, maxAttempts, schedule, s0, [], 0, 1)
    ensures Inv(cfg, s) && Honest(s, heard) && Bounded(cfg, chunk, maxAttempts, s.sent)
    ensures out.Uploaded? <==> Succeeds(cfg, maxAttempts, s.sent, heard)
    ensures out.Uploaded? ==> out.hash == cfg.server.hash(cfg.bytes) && s.published != []
    ensures !out.NotCreated?
  {
    assert cfg.server.roots != [];
    hide TameSchedule, WellFormed, Inv, Honest, Succeeds, Bounded, Going, Dialogue, VerifyChecksum;
    ghost var whole := Dialogue(cfg, chunk, maxAttempts, schedule, s0, [], 0, 1);
    var offset: nat := 0;
    var finishing: Option<Reply> := None;
    var attempt: nat := 1;
    s, heard := s0, [];
    FirstGoing(cfg, chunk, maxAttempts, schedule, s);
    while attempt <= maxAttempts && finishing.None?
      invariant Going(cfg, chunk, maxAttempts, schedule, whole, s, heard, offset, finishing, attempt)
      decreases maxAttempts + 1 - attempt
    {
      var refused;
      s, heard, offset, finishing, refused := NextRound(cfg, chunk, maxAttempts, schedule, whole, s, heard, offset, attempt);
      if refused {
        return HeadRefused, s, heard;
      }
      attempt := attempt + 1;
    }
    LastGoing(cfg, chunk, maxAttempts, schedule, whole, s, heard, offset, finishing, attempt);
    out := if finishing.None? then GaveUp else VerifyChecksum(finishing.value, cfg.server.hash(cfg.bytes));
  }

  lemma Unheard(cfg: Config, maxAttempts: nat, sent: seq<Request>, heard: seq<Option<Reply>>)
    requires |heard| == |sent| && !EveryHeadHeard(sent, heard)
    ensures !Succeeds(cfg, maxAttempts, sent, heard)
  {
  }

  lemma ReadyOffset(cfg: Config, chunk: nat, s: Sys, heard: seq<Option<Reply>>, offset: nat)
    requires Ready(cfg, chunk, s, heard, offset)
    ensures offset <= |cfg.bytes| && Inv(cfg, s) && Honest(s, heard) && EveryHeadHeard(s.sent, heard)
  {
    hide Inv;
  }

  /** The books before the first request. */
  lemma EmptyBooks(cfg: Config, chunk: nat, maxAttempts: nat, s: Sys)
    requires chunk > 0 && s.sent == []
    ensures Bounded(cfg, chunk, maxAttempts, s.sent)
    ensures Patches(s.sent) == 0 && BodyBytes(s.sent) == 0 && FailedPatches(s.sent, []) == 0
    ensures EveryHeadHeard(s.sent, []) && NoHeadFull(|cfg.bytes|, s.sent, [])
    ensures Inv(cfg, s) ==> Ready(cfg, chunk, s, [], 0)
  {
    hide Inv;
  }

  /** The books after a HEAD. */
  lemma HeadBooks(cfg: Config, chunk: nat, maxAttempts: nat, s: Sys, heard: seq<Option<Reply>>, s': Sys, h: Option<Reply>)
    requires chunk > 0 && |heard| == |s.sent| && |s'.sent| == |s.sent| + 1
    requires s'.sent[..|s.sent|] == s.sent && s'.sent[|s.sent|].Head?
    ensures Bounded(cfg, chunk, maxAttempts, s'.sent) <==> Bounded(cfg, chunk, maxAttempts, s.sent)
    ensures FailedPatches(s'.sent, heard + [h]) == FailedPatches(s.sent, heard)
    ensures EveryHeadHeard(s'.sent, heard + [h])
       <==> EveryHeadHeard(s.sent, heard) && h.Some? && h.value.Size?
    ensures NoHeadFull(|cfg.bytes|, s'.sent, heard + [h])
       <==> NoHeadFull(|cfg.bytes|, s.sent, heard) && !(h.Some? && h.value.Size? && h.value.size >= |cfg.bytes|)
  {
    hide Patches, BodyBytes, FailedPatches, Chunks;
    var r := s'.sent[|s.sent|];
    assert s'.sent == s.sent + [r];
    CountsAppend(s.sent, r, heard, h);
    HeadsAppend(s.sent, r, heard, h, |cfg.bytes|);
  }
}
