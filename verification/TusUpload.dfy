/** TusUploader.upload as a whole: creating the upload, then the rounds. */
module TusUpload {
  import opened Wrappers
  import opened Text
  import Decimal
  import FileTree
  import M = UploadMetadata
  import U = Uploads
  import UploadApi
  import opened TusProtocol
  import TusSafety
  import opened TusClient
  import opened TusRuns
  import opened TusOutcomes

  /** What the app's creating request does to the disk, and whether it is answered 201. */
  function Creation(cfg: Config, disk: U.Disk, t: FileTree.Tree, dir: seq<Byte>, filename: seq<Byte>, fault: U.Fault)
    : (U.Disk, bool)
    requires cfg.server.roots != [] && UploadApi.IsAscii(cfg.server.hash(cfg.bytes))
  {
    UploadApi.HandleCreate(cfg.server, disk, t, cfg.id, Decimal.Print(|cfg.bytes|),
      M.Encode(UploadApi.ClientEntries(dir, filename, cfg.server.hash(cfg.bytes))), fault)
  }

  /** The whole history of an upload, given the disk, the schedule and whether the app
      hears the answer to its creating request. */
  function Story(cfg: Config, disk: U.Disk, t: FileTree.Tree, dir: seq<Byte>, filename: seq<Byte>, creation: U.Fault,
                 heardCreated: bool, chunk: nat, maxAttempts: nat, schedule: seq<Window>): History
    requires cfg.server.roots != [] && UploadApi.IsAscii(cfg.server.hash(cfg.bytes)) && chunk > 0
  {
    var (disk', created) := Creation(cfg, disk, t, dir, filename, creation);
    if created && heardCreated then Dialogue(cfg, chunk, maxAttempts, schedule, Start(disk'), [], 0, 1)
    else (NotCreated, Start(disk'), [])
  }

  /** Some step of the run put the file's bytes where the declared target leads. */
  ghost predicate PutInPlaceIn(cfg: Config, s0: Sys, es: seq<Event>)
    requires cfg.server.roots != []
  {
    exists i :: 0 <= i < |es| && es[i].Does? && es[i].act.FinishNow?
      && TusSafety.PutsInPlace(cfg, Run(cfg, s0, es[..i]), es[i].act)
  }

  /** The dialogue after the creation as a run. */
  lemma DialogueRuns(cfg: Config, d: U.Disk, chunk: nat, maxAttempts: nat, schedule: seq<Window>, out: Outcome, s: Sys,
                     heard: seq<Option<Reply>>)
    requires WellFormed(cfg) && TameSchedule(cfg, schedule) && Created(cfg, d) && chunk > 0
    requires (out, s, heard) == Dialogue(cfg, chunk, maxAttempts, schedule, Start(d), [], 0, 1)
    ensures Inv(cfg, Start(d)) && TameEvents(cfg, Script(s.sent, schedule))
    ensures Follows(cfg, Start(d), schedule, s, heard)
    ensures if out.Uploaded? then Completed(cfg, s, heard) else Quiet(heard)
  {
    TusSafety.StartHolds(cfg, d);
    assert Follows(cfg, Start(d), schedule, Start(d), []);
    DialogueFollows(cfg, Start(d), chunk, maxAttempts, schedule, Start(d), [], 0, 1);
    ScriptIsTame(cfg, s.sent, schedule);
    DialogueHeard(cfg, chunk, maxAttempts, schedule, Start(d), [], 0, 1);
    hide Dialogue, Follows, Script, Completed;
  }

  /** Everything after the creation, for a dialogue that came out as Succeeds says. */
  lemma AfterCreation(cfg: Config, d: U.Disk, chunk: nat, maxAttempts: nat, schedule: seq<Window>, out: Outcome, s: Sys,
                      heard: seq<Option<Reply>>)
    requires WellFormed(cfg) && TameSchedule(cfg, schedule) && Created(cfg, d) && chunk > 0
    requires (out, s, heard) == Dialogue(cfg, chunk, maxAttempts, schedule, Start(d), [], 0, 1)
    requires Inv(cfg, s) && Honest(s, heard) && (out.Uploaded? <==> Succeeds(cfg, maxAttempts, s.sent, heard))
    requires out.Uploaded? ==> s.published != []
    ensures Follows(cfg, Start(d), schedule, s, heard)
    ensures out.Uploaded? ==> PutInPlaceIn(cfg, Start(d), Script(s.sent, schedule))
    ensures out.Uploaded? <==>
      && cfg.bytes != [] && FailedPatches(s.sent, heard) < maxAttempts && EveryHeadHeard(s.sent, heard)
      && !LostLastByte(cfg, s.sent, heard, Landed(cfg, Start(d), Script(s.sent, schedule)))
  {
    DialogueRuns(cfg, d, chunk, maxAttempts, schedule, out, s, heard);
    assert cfg.bytes != [] ==> LandingOk(cfg, Start(d), {});
    assert s == Run(cfg, Start(d), Script(s.sent, schedule)) && Start(d).published == [];
    hide Dialogue, Run, Script, Landed, LandingOk, Inv, LostLastByte, PutInPlaceIn, TameEvents, Follows, Completed,
      WellFormed, FailedPatches, EveryHeadHeard, Succeeds, Start;
    if out.Uploaded? {
      PutSomewhere(cfg, Start(d), Script(s.sent, schedule));
    }
    if cfg.bytes != [] {
      LandingDecides(cfg, Start(d), Script(s.sent, schedule), s, heard, maxAttempts, out.Uploaded?);
    } else {
      NothingSucceeds(cfg, maxAttempts, s.sent, heard);
    }
  }

  lemma PutSomewhere(cfg: Config, s0: Sys, es: seq<Event>)
    requires WellFormed(cfg) && Inv(cfg, s0) && TameEvents(cfg, es)
    requires s0.published == [] && Run(cfg, s0, es).published != []
    ensures PutInPlaceIn(cfg, s0, es)
  {
    hide Run, Inv, TusSafety.PutsInPlace, TameEvents;
    var i := TusSafety.PublishedByAStep(cfg, s0, es);
  }

  lemma LandingDecides(cfg: Config, s0: Sys, es: seq<Event>, s: Sys, heard: seq<Option<Reply>>, maxAttempts: nat,
                       uploaded: bool)
    requires WellFormed(cfg) && Inv(cfg, s0) && TameEvents(cfg, es) && LandingOk(cfg, s0, {})
    requires s == Run(cfg, s0, es) && Inv(cfg, s) && Honest(s, heard)
    requires uploaded <==> Succeeds(cfg, maxAttempts, s.sent, heard)
    requires if uploaded then Completed(cfg, s, heard) else Quiet(heard)
    ensures uploaded <==>
      && cfg.bytes != [] && FailedPatches(s.sent, heard) < maxAttempts && EveryHeadHeard(s.sent, heard)
      && !LostLastByte(cfg, s.sent, heard, Landed(cfg, s0, es))
  {
    RunLands(cfg, s0, es, {});
    assert {} + Landed(cfg, s0, es) == Landed(cfg, s0, es);
    hide *;
    LastByteDecides(cfg, s, heard, Landed(cfg, s0, es), maxAttempts, uploaded);
  }

  lemma NothingSucceeds(cfg: Config, maxAttempts: nat, sent: seq<Request>, heard: seq<Option<Reply>>)
    requires |heard| == |sent| && cfg.bytes == []
    ensures !Succeeds(cfg, maxAttempts, sent, heard)
  {
  }

  /** upload, for a file whose bytes are `cfg.bytes`: create, then at most
      `maxAttempts` rounds.

      - What it returns, sends and hears, and what becomes of the disk, is the story
        that the schedule tells, which is a run of the protocol.
      - Agreement: a returned hash is the file's, and a step of that run did put exactly
        the file's bytes where the target leads; nothing else was ever put there by
        this upload.
      - Bounds: at most ceil(length / chunk) + maxAttempts PATCHes, at most
        length + maxAttempts * chunk body bytes.
      - Completion, exactly: an upload whose 201 was heard succeeds if and only if the
        file is not empty, fewer than `maxAttempts` PATCHes failed, every HEAD was
        answered, and no PATCH that failed had stored the last byte. */
  method Upload(cfg: Config, disk: U.Disk, t: FileTree.Tree, dir: seq<Byte>, filename: seq<Byte>, creation: U.Fault,
                heardCreated: bool, chunk: nat, maxAttempts: nat, schedule: seq<Window>)
    returns (out: Outcome, s: Sys, heard: seq<Option<Reply>>)
    requires WellFormed(cfg) && TameSchedule(cfg, schedule) && chunk > 0
    requires cfg.target == UploadApi.TargetOf(dir, filename)
    requires UploadApi.IsAscii(cfg.server.hash(cfg.bytes)) && |cfg.bytes| <= Decimal.MAX_INT64
    ensures (out, s, heard) == Story(cfg, disk, t, dir, filename, creation, heardCreated, chunk, maxAttempts, schedule)
    ensures Follows(cfg, Start(Creation(cfg, disk, t, dir, filename, creation).0), schedule, s, heard)
    ensures forall i :: 0 <= i < |s.published| ==> s.published[i] == cfg.bytes
    ensures out.Uploaded? ==> out.hash == cfg.server.hash(cfg.bytes)
    ensures out.Uploaded? ==>
      PutInPlaceIn(cfg, Start(Creation(cfg, disk, t, dir, filename, creation).0), Script(s.sent, schedule))
    ensures Bounded(cfg, chunk, maxAttempts, s.sent)
    ensures out.Uploaded? <==>
      var (disk', created) := Creation(cfg, disk, t, dir, filename, creation);
      && created && heardCreated
      && cfg.bytes != [] && FailedPatches(s.sent, heard) < maxAttempts && EveryHeadHeard(s.sent, heard)
      && !LostLastByte(cfg, s.sent, heard, Landed(cfg, Start(disk'), Script(s.sent, schedule)))
  {
    var (disk', created) := Creation(cfg, disk, t, dir, filename, creation);
    CreationHolds(cfg, disk, t, dir, filename, creation);
    s, heard := Start(disk'), [];
    EmptyBooks(cfg, chunk, maxAttempts, s);
    assert Follows(cfg, s, schedule, s, []);
    assert s.published == [];
    hide Creation, Bounded, Follows, Landed, LostLastByte, Dialogue, FailedPatches, EveryHeadHeard, Succeeds, PutInPlaceIn,
      U.RootsApart, U.ValidUploadId, TameSchedule, Created;
    if created && heardCreated {
      TusSafety.StartHolds(cfg, disk');
      out, s, heard := SendRounds(cfg, chunk, maxAttempts, schedule, s);
      AfterCreation(cfg, disk', chunk, maxAttempts, schedule, out, s, heard);
    } else {
      out := NotCreated;
    }
  }

  lemma CreationHolds(cfg: Config, disk: U.Disk, t: FileTree.Tree, dir: seq<Byte>, filename: seq<Byte>, creation: U.Fault)
    requires WellFormed(cfg) && cfg.target == UploadApi.TargetOf(dir, filename)
    requires UploadApi.IsAscii(cfg.server.hash(cfg.bytes)) && |cfg.bytes| <= Decimal.MAX_INT64
    ensures var (disk', created) := Creation(cfg, disk, t, dir, filename, creation);
      created ==> Created(cfg, disk')
  {
    UploadApi.CreateArrives(cfg.server, disk, t, cfg.id, |cfg.bytes|, dir, filename, cfg.server.hash(cfg.bytes), creation);
    hide UploadApi.HandleCreate, UploadApi.ClientEntries, UploadApi.TargetOf, M.Encode, Decimal.Print;
  }
}
