/** When an upload succeeds, in terms of what happened on the server. */
module TusOutcomes {
  import opened Wrappers
  import opened Text
  import FileTree
  import U = Uploads
  import opened TusProtocol
  import TusSafety
  import opened TusClient
  import opened TusRuns

  // ---- Which requests got their last byte stored --------------------------------------------

  /** The request whose last byte this step stores, if any. */
  function LandsNow(cfg: Config, s: Sys, e: Event): set<nat> {
    if e == Does(CopyByte) && s.copying.Some? && s.copying.value.request < |s.sent|
       && s.sent[s.copying.value.request].Patch? && PartOf(cfg, s).Some?
       && s.copying.value.done + 1 == |s.sent[s.copying.value.request].data|
    then {s.copying.value.request} else {}
  }

  /** The requests whose last byte a run stores. */
  function Landed(cfg: Config, s: Sys, es: seq<Event>): set<nat>
    requires cfg.server.roots != []
    decreases |es|
  {
    if es == [] then {} else LandsNow(cfg, s, es[0]) + Landed(cfg, Happen(cfg, s, es[0]), es[1..])
  }

  /** A PATCH that ends with the file. */
  predicate IsLast(cfg: Config, sent: seq<Request>, n: nat) {
    n < |sent| && sent[n].Patch? && sent[n].offset + |sent[n].data| == |cfg.bytes|
  }

  ghost predicate SomeLast(cfg: Config, sent: seq<Request>, landed: set<nat>) {
    exists n :: n in landed && IsLast(cfg, sent, n)
  }

  /** A copy that has reached the end of its body. */
  predicate AllCopied(s: Sys) {
    && s.copying.Some? && s.copying.value.request < |s.sent| && s.sent[s.copying.value.request].Patch?
    && s.copying.value.done == |s.sent[s.copying.value.request].data|
  }

  /** The books on landings. */
  ghost predicate LandingOk(cfg: Config, s: Sys, landed: set<nat>) {
    && (AllCopied(s) ==> s.copying.value.request in landed)
    && s.finishing <= landed
    && (forall n, r :: (n, r) in s.replies && r.Finished? ==> n in landed)
    && (PartOf(cfg, s).Some? && |PartOf(cfg, s).value| >= |cfg.bytes| ==> SomeLast(cfg, s.sent, landed))
    && (forall n, r :: (n, r) in s.replies && r.Size? && r.size >= |cfg.bytes| ==> SomeLast(cfg, s.sent, landed))
    && (forall n, m :: n in landed && m in landed && IsLast(cfg, s.sent, n) && IsLast(cfg, s.sent, m) ==> n == m)
    && (SomeLast(cfg, s.sent, landed) ==> Reached(cfg, s, |cfg.bytes|))
    && (forall n :: n in landed ==> n < |s.sent|)
  }

  lemma StoringLands(cfg: Config, s: Sys, landed: set<nat>)
    requires WellFormed(cfg) && Inv(cfg, s) && LandingOk(cfg, s, landed)
    ensures LandingOk(cfg, StepCopyByte(cfg, s), landed + LandsNow(cfg, s, Does(CopyByte)))
  {
    var s' := StepCopyByte(cfg, s);
    if s' != s {
      var Copying(n, done) := s.copying.value;
      var part := PartOf(cfg, s).value;
      assert RequestOk(cfg, s, s.sent[n]);
      U.FilesAreSeparate(cfg.server, cfg.id, cfg.id);
      assert PartOf(cfg, s') == Some(part + [s.sent[n].data[done]]);
      assert !SomeLast(cfg, s.sent, landed);
      hide U.Part, U.LoadState, Inv;
      var landed' := landed + LandsNow(cfg, s, Does(CopyByte));
      if |part| + 1 >= |cfg.bytes| {
        assert n in landed' && IsLast(cfg, s'.sent, n);
      }
    }
  }

  /** Steps that store nothing of this upload, add no answer that matters and end no
      copy. */
  lemma OthersLand(cfg: Config, s: Sys, s': Sys, landed: set<nat>)
    requires LandingOk(cfg, s, landed) && Grows(cfg, s, s')
    requires PartOf(cfg, s').None? || PartOf(cfg, s') == PartOf(cfg, s)
    requires s'.sent == s.sent
    requires s'.copying == s.copying || s'.copying.None?
          || (s'.copying.value.done == 0 && s'.copying.value.request < |s.sent| && s.sent[s'.copying.value.request].Patch?
              && s.sent[s'.copying.value.request].data != [])
    requires s'.finishing <= landed
    requires forall n, r :: (n, r) in s'.replies && (n, r) !in s.replies ==>
      && (r.Finished? ==> n in landed)
      && (r.Size? && r.size >= |cfg.bytes| ==> PartOf(cfg, s).Some? && |PartOf(cfg, s).value| >= |cfg.bytes|)
    ensures LandingOk(cfg, s', landed)
  {
    hide U.Part, U.LoadState, SomeLast, IsLast;
  }

  lemma StepLands(cfg: Config, s: Sys, act: Act, landed: set<nat>)
    requires WellFormed(cfg) && Inv(cfg, s) && TameAct(cfg, act) && LandingOk(cfg, s, landed)
    ensures LandingOk(cfg, Step(cfg, s, act), landed + LandsNow(cfg, s, Does(act)))
  {
    TusSafety.StepKeeps(cfg, s, act);
    var s' := Step(cfg, s, act);
    match act
    case CopyByte => StoringLands(cfg, s, landed);
    case FinishNow(n, t, fault) => FinishLands(cfg, s, n, t, fault, landed);
    case Other(op) => OtherLands(cfg, s, op, landed);
    case Arrive(n, opens) => ArriveLands(cfg, s, n, opens, landed);
    case CopyEnds => EndLands(cfg, s, landed);
    case _ =>
      assert landed + LandsNow(cfg, s, Does(act)) == landed;
      hide LandingOk, U.Part, U.LoadState, Inv, Grows;
      assert PartOf(cfg, s') == PartOf(cfg, s) by { DiskDecides(cfg, s, s'); }
      assert s'.finishing <= landed by { FinishingLanded(cfg, s, landed); }
      OthersLand(cfg, s, s', landed);
  }

  lemma DiskDecides(cfg: Config, s: Sys, s': Sys)
    ensures s.disk == s'.disk ==> PartOf(cfg, s') == PartOf(cfg, s)
  {
  }

  lemma FinishingLanded(cfg: Config, s: Sys, landed: set<nat>)
    requires LandingOk(cfg, s, landed)
    ensures s.finishing <= landed
  {
  }

  lemma ArriveLands(cfg: Config, s: Sys, n: nat, opens: bool, landed: set<nat>)
    requires WellFormed(cfg) && Inv(cfg, s) && LandingOk(cfg, s, landed)
    ensures LandingOk(cfg, StepArrive(cfg, s, n, opens), landed + LandsNow(cfg, s, Does(Arrive(n, opens))))
  {
    TusSafety.ArriveKeeps(cfg, s, n, opens);
    var s' := StepArrive(cfg, s, n, opens);
    assert landed + LandsNow(cfg, s, Does(Arrive(n, opens))) == landed;
    assert n < |s.sent| ==> RequestOk(cfg, s, s.sent[n]);
    DiskDecides(cfg, s, s');
    FinishingLanded(cfg, s, landed);
    hide LandingOk, U.Part, U.LoadState, Inv, Grows;
    OthersLand(cfg, s, s', landed);
  }

  lemma EndLands(cfg: Config, s: Sys, landed: set<nat>)
    requires WellFormed(cfg) && Inv(cfg, s) && LandingOk(cfg, s, landed)
    ensures LandingOk(cfg, StepCopyEnds(cfg, s), landed + LandsNow(cfg, s, Does(CopyEnds)))
  {
    TusSafety.CopyEndsKeeps(cfg, s);
    var s' := StepCopyEnds(cfg, s);
    assert landed + LandsNow(cfg, s, Does(CopyEnds)) == landed;
    DiskDecides(cfg, s, s');
    assert s.copying.Some? ==> CopyingOk(cfg, s, s.copying.value);
    assert s'.finishing <= landed;
    hide LandingOk, U.Part, U.LoadState, Inv, Grows;
    OthersLand(cfg, s, s', landed);
  }

  lemma OtherLands(cfg: Config, s: Sys, op: U.Op, landed: set<nat>)
    requires WellFormed(cfg) && Inv(cfg, s) && TameAct(cfg, Other(op)) && LandingOk(cfg, s, landed)
    ensures LandingOk(cfg, Step(cfg, s, Other(op)), landed + LandsNow(cfg, s, Does(Other(op))))
  {
    var s' := Step(cfg, s, Other(op));
    TusSafety.OtherKeeps(cfg, s, op);
    assert landed + LandsNow(cfg, s, Does(Other(op))) == landed;
    if s.copying.None? && op.id != cfg.id {
      U.TameNeverStrays(cfg.server, s.disk, op, cfg.id);
      U.OthersUntouched(cfg.server, s.disk, op, cfg.id);
      assert PartOf(cfg, s') == PartOf(cfg, s);
    }
    FinishingLanded(cfg, s, landed);
    hide LandingOk, U.Part, U.LoadState, Inv, Grows, U.Apply;
    OthersLand(cfg, s, s', landed);
  }

  lemma FinishLands(cfg: Config, s: Sys, n: nat, t: FileTree.Tree, fault: U.Fault, landed: set<nat>)
    requires WellFormed(cfg) && Inv(cfg, s) && U.Tame(cfg.server, t, fault) && LandingOk(cfg, s, landed)
    ensures LandingOk(cfg, StepFinish(cfg, s, n, t, fault), landed + LandsNow(cfg, s, Does(FinishNow(n, t, fault))))
  {
    var s' := StepFinish(cfg, s, n, t, fault);
    TusSafety.FinishKeeps(cfg, s, n, t, fault);
    assert landed + LandsNow(cfg, s, Does(FinishNow(n, t, fault))) == landed;
    FinishingLanded(cfg, s, landed);
    if s.copying.None? && n in s.finishing {
      assert FinishingOk(cfg, s, n);
      TusSafety.FinishOnComplete(cfg, s, t, fault);
      hide U.Finish;
      assert PartOf(cfg, s').None? || PartOf(cfg, s') == PartOf(cfg, s);
    }
    hide LandingOk, U.Part, U.LoadState, Inv, Grows, U.Finish;
    OthersLand(cfg, s, s', landed);
  }

  lemma SendLands(cfg: Config, s: Sys, r: Request, landed: set<nat>)
    requires Inv(cfg, s) && LandingOk(cfg, s, landed)
    ensures LandingOk(cfg, s.(sent := s.sent + [r]), landed)
  {
    var s' := s.(sent := s.sent + [r]);
    assert s.copying.Some? ==> CopyingOk(cfg, s, s.copying.value);
    DiskDecides(cfg, s, s');
    hide U.Part, U.LoadState;
    assert forall n :: n in landed ==> (IsLast(cfg, s'.sent, n) <==> IsLast(cfg, s.sent, n));
  }

  lemma HappenLands(cfg: Config, s: Sys, e: Event, landed: set<nat>)
    requires WellFormed(cfg) && Inv(cfg, s) && (e.Does? ==> TameAct(cfg, e.act)) && LandingOk(cfg, s, landed)
    ensures LandingOk(cfg, Happen(cfg, s, e), landed + LandsNow(cfg, s, e))
  {
    hide LandingOk, Inv;
    match e
    case Does(act) => StepLands(cfg, s, act, landed);
    case Sends(from, to) =>
      assert landed + LandsNow(cfg, s, e) == landed;
      if from < to <= |cfg.bytes| {
        SendLands(cfg, s, Patch(from, cfg.bytes[from..to]), landed);
      }
    case Asks =>
      assert landed + LandsNow(cfg, s, e) == landed;
      var part := PartOf(cfg, s);
      SendLands(cfg, s, Head(if part.None? then None else Some(|part.value|)), landed);
  }

  lemma {:induction false} RunLands(cfg: Config, s: Sys, es: seq<Event>, landed: set<nat>)
    requires WellFormed(cfg) && Inv(cfg, s) && TameEvents(cfg, es) && LandingOk(cfg, s, landed)
    ensures LandingOk(cfg, Run(cfg, s, es), landed + Landed(cfg, s, es))
    decreases |es|
  {
    if es == [] {
      assert landed + {} == landed;
    } else {
      var s1 := Happen(cfg, s, es[0]);
      HappenLands(cfg, s, es[0], landed);
      TusSafety.HappenKeeps(cfg, s, es[0]);
      hide LandingOk, Inv, Happen, LandsNow;
      RunLands(cfg, s1, es[1..], landed + LandsNow(cfg, s, es[0]));
      assert landed + LandsNow(cfg, s, es[0]) + Landed(cfg, s1, es[1..]) == landed + Landed(cfg, s, es);
    }
  }

  // ---- What the client heard last ---------------------------------------------------------------

  /** No completing answer so far. */
  ghost predicate Quiet(heard: seq<Option<Reply>>) {
    forall n :: 0 <= n < |heard| ==> !(heard[n].Some? && heard[n].value.Finished?)
  }

  /** The last request is a PATCH that ends with the file, answered by a completing
      answer; there was none before. */
  ghost predicate Completed(cfg: Config, s: Sys, heard: seq<Option<Reply>>) {
    && |heard| == |s.sent| && heard != []
    && var z := |heard| - 1;
    && IsLast(cfg, s.sent, z) && heard[z].Some? && heard[z].value.Finished? && Quiet(heard[..z])
  }

  /** One PATCH, as far as hearing goes. */
  lemma PatchHeard(cfg: Config, s: Sys, heard: seq<Option<Reply>>, from: nat, to: nat, schedule: seq<Window>)
    requires WellFormed(cfg) && TameSchedule(cfg, schedule) && Inv(cfg, s) && Honest(s, heard) && Quiet(heard)
    requires from < to <= |cfg.bytes|
    ensures var (s', h) := Exchange(cfg, SendPatch(cfg, s, from, to), schedule);
      && Inv(cfg, s') && Honest(s', heard + [h])
      && (Accepted(h) && h.value.offset < |cfg.bytes| ==> Quiet(heard + [h]))
      && (!Accepted(h) ==> Quiet(heard + [h]))
      && (Accepted(h) && h.value.offset >= |cfg.bytes| ==>
            Completed(cfg, s', heard + [h]) && h.value.Finished? && h.value.sum == cfg.server.hash(cfg.bytes))
  {
    var s1 := SendPatch(cfg, s, from, to);
    TusSafety.SendKeeps(cfg, s, Patch(from, cfg.bytes[from..to]));
    ExchangeKeeps(cfg, s1, schedule);
    var (s', h) := Exchange(cfg, s1, schedule);
    hide Exchange;
    TusSafety.GrowsTransitive(cfg, s, s1, s');
    HonestGrows(s, s', heard, h);
    hide U.Part, U.LoadState;
    assert (heard + [h])[..|heard|] == heard;
    if h.Some? {
      assert ReplyOk(cfg, s', |s.sent|, h.value);
    }
  }

  lemma HeadHeard(cfg: Config, s: Sys, heard: seq<Option<Reply>>, schedule: seq<Window>)
    requires WellFormed(cfg) && TameSchedule(cfg, schedule) && Inv(cfg, s) && Honest(s, heard) && Quiet(heard)
    ensures var (s', h) := Exchange(cfg, SendHead(cfg, s), schedule);
      Inv(cfg, s') && Honest(s', heard + [h]) && Quiet(heard + [h])
  {
    var part := PartOf(cfg, s);
    var s1 := SendHead(cfg, s);
    TusSafety.SendKeeps(cfg, s, Head(if part.None? then None else Some(|part.value|)));
    ExchangeKeeps(cfg, s1, schedule);
    var (s', h) := Exchange(cfg, s1, schedule);
    hide Exchange;
    TusSafety.GrowsTransitive(cfg, s, s1, s');
    HonestGrows(s, s', heard, h);
    hide U.Part, U.LoadState;
    if h.Some? {
      assert ReplyOk(cfg, s', |s.sent|, h.value);
    }
  }

  /** A dialogue succeeds exactly with a completing answer, which then is the last thing
      heard. */
  lemma {:induction false} DialogueHeard(cfg: Config, chunk: nat, maxAttempts: nat, schedule: seq<Window>, s: Sys,
                                        heard: seq<Option<Reply>>, offset: nat, attempt: nat)
    requires WellFormed(cfg) && TameSchedule(cfg, schedule) && chunk > 0 && attempt <= maxAttempts + 1
    requires Inv(cfg, s) && Honest(s, heard) && Quiet(heard)
    ensures var (out, s', heard') := Dialogue(cfg, chunk, maxAttempts, schedule, s, heard, offset, attempt);
      && |heard'| == |s'.sent|
      && (out.Uploaded? ==> Completed(cfg, s', heard'))
      && (!out.Uploaded? ==> Quiet(heard'))
    decreases if |heard| <= |schedule| then |schedule| - |heard| else 0, maxAttempts + 1 - attempt
  {
    hide Inv, Exchange, Quiet, Completed, TameSchedule, U.RootsApart, U.ValidUploadId;
    assert WellFormed(cfg) ==> cfg.server.roots != [] by { RootsThere(cfg); }
    if attempt > maxAttempts {
    } else if offset >= |cfg.bytes| {
      DialogueHeard(cfg, chunk, maxAttempts, schedule, s, heard, offset, attempt + 1);
    } else {
      var end := U.Min(offset + chunk, |cfg.bytes|);
      PatchHeard(cfg, s, heard, offset, end, schedule);
      var (s1, h) := Exchange(cfg, SendPatch(cfg, s, offset, end), schedule);
      if !Accepted(h) {
        HeadHeard(cfg, s1, heard + [h], schedule);
        var (s2, g) := Exchange(cfg, SendHead(cfg, s1), schedule);
        if g.Some? && g.value.Size? {
          DialogueHeard(cfg, chunk, maxAttempts, schedule, s2, heard + [h] + [g], g.value.size, attempt + 1);
        }
      } else if h.value.offset < |cfg.bytes| {
        DialogueHeard(cfg, chunk, maxAttempts, schedule, s1, heard + [h], h.value.offset, attempt);
      }
    }
  }

  lemma RootsThere(cfg: Config)
    requires WellFormed(cfg)
    ensures cfg.server.roots != []
  {
  }

  // ---- Success, exactly ---------------------------------------------------------------------------

  /** A PATCH of which the client heard no success stored the last byte of the file. */
  ghost predicate LostLastByte(cfg: Config, sent: seq<Request>, heard: seq<Option<Reply>>, landed: set<nat>)
    requires |heard| == |sent|
  {
    exists m :: m in landed && IsLast(cfg, sent, m) && PatchFailed(sent[m], heard[m])
  }

  /** That every answered HEAD found less than the whole file comes to this: no PATCH that
      failed stored the last byte. */
  lemma LastByteDecides(cfg: Config, s: Sys, heard: seq<Option<Reply>>, landed: set<nat>, maxAttempts: nat, uploaded: bool)
    requires Inv(cfg, s) && Honest(s, heard) && LandingOk(cfg, s, landed)
    requires uploaded <==> Succeeds(cfg, maxAttempts, s.sent, heard)
    requires if uploaded then Completed(cfg, s, heard) else Quiet(heard)
    ensures uploaded <==>
      && cfg.bytes != [] && FailedPatches(s.sent, heard) < maxAttempts && EveryHeadHeard(s.sent, heard)
      && !LostLastByte(cfg, s.sent, heard, landed)
  {
    hide Inv, FailedPatches, EveryHeadHeard;
    if uploaded {
      var z := |heard| - 1;
      assert (z, heard[z].value) in s.replies;
    } else if !NoHeadFull(|cfg.bytes|, s.sent, heard) {
      var n :| 0 <= n < |s.sent| && HeadFull(|cfg.bytes|, s.sent[n], heard[n]);
      assert (n, heard[n].value) in s.replies;
      var m :| m in landed && IsLast(cfg, s.sent, m);
      if Accepted(heard[m]) {
        LastAccepted(cfg, s, heard, m);
      }
    }
  }

  /** An accepted PATCH that ends with the file was answered by a completing answer. */
  lemma LastAccepted(cfg: Config, s: Sys, heard: seq<Option<Reply>>, m: nat)
    requires Inv(cfg, s) && Honest(s, heard) && IsLast(cfg, s.sent, m) && Accepted(heard[m])
    ensures heard[m].value.Finished?
  {
    hide U.Part, U.LoadState;
    assert ReplyOk(cfg, s, m, heard[m].value);
  }
}
