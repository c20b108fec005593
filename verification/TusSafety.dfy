/** What holds in every run of the upload protocol. */
module TusSafety {
  import opened Wrappers
  import opened Text
  import opened Paths
  import FileTree
  import Store
  import U = Uploads
  import opened TusProtocol

  // ---- Single steps keep the invariant ------------------------------------------------

  lemma AnswerKeeps(cfg: Config, s: Sys, n: nat, reply: Reply)
    requires Inv(cfg, s) && ReplyOk(cfg, s, n, reply)
    ensures Inv(cfg, Answer(s, n, reply)) && Grows(cfg, s, Answer(s, n, reply))
  {
    hide U.Part, U.LoadState;
    var s' := Answer(s, n, reply);
    forall m, r | (m, r) in s'.replies ensures ReplyOk(cfg, s', m, r) {
      assert (m, r) in s.replies || (m, r) == (n, reply);
      assert ReplyOk(cfg, s, m, r);
    }
  }

  /** Steps that leave this upload's files alone. */
  lemma FrameKeeps(cfg: Config, s: Sys, s': Sys)
    requires Inv(cfg, s)
    requires U.SameUpload(cfg.server, s.disk, s'.disk, cfg.id)
    requires s'.sent == s.sent && s'.replies == s.replies && s'.published == s.published
    requires s'.copying == s.copying || s'.copying.None?
    requires s'.finishing <= s.finishing
    ensures Inv(cfg, s') && Grows(cfg, s, s')
  {
    assert PartOf(cfg, s') == PartOf(cfg, s) && StateOf(cfg, s') == StateOf(cfg, s);
    hide U.Part, U.LoadState;
    forall n, r | (n, r) in s'.replies ensures ReplyOk(cfg, s', n, r) {
      assert ReplyOk(cfg, s, n, r);
    }
    assert forall n :: n in s'.finishing ==> FinishingOk(cfg, s, n);
  }

  lemma OtherKeeps(cfg: Config, s: Sys, op: U.Op)
    requires WellFormed(cfg) && Inv(cfg, s) && TameAct(cfg, Other(op))
    ensures Inv(cfg, Step(cfg, s, Other(op))) && Grows(cfg, s, Step(cfg, s, Other(op)))
  {
    if s.copying.None? && op.id != cfg.id {
      U.TameNeverStrays(cfg.server, s.disk, op, cfg.id);
      U.OthersUntouched(cfg.server, s.disk, op, cfg.id);
      FrameKeeps(cfg, s, Step(cfg, s, Other(op)));
    }
  }

  lemma ArriveKeeps(cfg: Config, s: Sys, n: nat, opens: bool)
    requires WellFormed(cfg) && Inv(cfg, s)
    ensures Inv(cfg, StepArrive(cfg, s, n, opens)) && Grows(cfg, s, StepArrive(cfg, s, n, opens))
  {
    hide U.Part, U.LoadState;
    var s' := StepArrive(cfg, s, n, opens);
    if s' != s {
      if s'.copying.None? {
        AnswerKeeps(cfg, s, n, Failed);
      } else {
        forall m, r | (m, r) in s'.replies ensures ReplyOk(cfg, s', m, r) {
          assert ReplyOk(cfg, s, m, r);
        }
        assert forall m :: m in s'.finishing ==> FinishingOk(cfg, s, m);
      }
    }
  }

  /** One more byte at the end of the part. */
  lemma CopyByteKeeps(cfg: Config, s: Sys)
    requires WellFormed(cfg) && Inv(cfg, s)
    ensures Inv(cfg, StepCopyByte(cfg, s)) && Grows(cfg, s, StepCopyByte(cfg, s))
  {
    var s' := StepCopyByte(cfg, s);
    if s' != s {
      var Copying(n, done) := s.copying.value;
      var part := PartOf(cfg, s).value;
      var Patch(offset, data) := s.sent[n];
      var grown := part + [data[done]];
      assert RequestOk(cfg, s, s.sent[n]);
      U.FilesAreSeparate(cfg.server, cfg.id, cfg.id);
      assert PartOf(cfg, s') == Some(grown) && StateOf(cfg, s') == StateOf(cfg, s);
      hide U.Part, U.LoadState;
      assert grown <= cfg.bytes by {
        assert data[done] == cfg.bytes[offset + done];
      }
      assert s'.finishing == {} by {
        assert |part| < |cfg.bytes|;
      }
      forall m, r | (m, r) in s'.replies ensures ReplyOk(cfg, s', m, r) {
        assert ReplyOk(cfg, s, m, r);
      }
      forall m | 0 <= m < |s'.sent| ensures RequestOk(cfg, s', s'.sent[m]) {
        assert RequestOk(cfg, s, s.sent[m]);
      }
    }
  }

  lemma CopyEndsKeeps(cfg: Config, s: Sys)
    requires WellFormed(cfg) && Inv(cfg, s)
    ensures Inv(cfg, StepCopyEnds(cfg, s)) && Grows(cfg, s, StepCopyEnds(cfg, s))
  {
    if s.copying.Some? {
      FrameKeeps(cfg, s, s.(copying := None));
    }
    hide U.Part, U.LoadState;
    var s' := StepCopyEnds(cfg, s);
    if s' != s {
      var Copying(n, done) := s.copying.value;
      var free := s.(copying := None);
      assert RequestOk(cfg, s, s.sent[n]);
      var newOffset := s.sent[n].offset + done;
      if newOffset < |cfg.bytes| {
        AnswerKeeps(cfg, free, n, Written(newOffset));
      } else {
        assert PartOf(cfg, s).value == cfg.bytes;
        forall m | m in s'.finishing ensures FinishingOk(cfg, s', m) {
          assert m == n || FinishingOk(cfg, s, m);
        }
        forall m, r | (m, r) in s'.replies ensures ReplyOk(cfg, s', m, r) {
          assert ReplyOk(cfg, s, m, r);
        }
      }
    }
  }

  /** Finish on a complete part: either it refuses and the upload's files stay, or
      the part is gone, and unless it refused it reports the client's own hash.
      It never reports a mismatch. */
  lemma FinishOnComplete(cfg: Config, s: Sys, t: FileTree.Tree, fault: U.Fault)
    requires WellFormed(cfg) && StoredOk(cfg, s) && U.Tame(cfg.server, t, fault)
    requires PartOf(cfg, s).Some? ==> PartOf(cfg, s).value == cfg.bytes
    ensures var (d', r) := U.Finish(cfg.server, s.disk, t, cfg.id, fault);
      && (r == Err(U.Refused) || (r == Ok(cfg.server.hash(cfg.bytes)) && PartOf(cfg, s).Some?))
      && ((r.Err? && U.SameUpload(cfg.server, s.disk, d', cfg.id))
          || (U.PartPath(cfg.server, cfg.id) !in d'
             && (U.StatePath(cfg.server, cfg.id) in d' ==>
                   U.StatePath(cfg.server, cfg.id) in s.disk
                   && d'[U.StatePath(cfg.server, cfg.id)] == s.disk[U.StatePath(cfg.server, cfg.id)])))
  {
    ToLowerIdempotent(cfg.server.hash(cfg.bytes));
    U.FilesAreSeparate(cfg.server, cfg.id, cfg.id);
    U.TameWritesOutside(cfg.server, s.disk, t, cfg.id, fault, U.PartPath(cfg.server, cfg.id));
    U.TameWritesOutside(cfg.server, s.disk, t, cfg.id, fault, U.StatePath(cfg.server, cfg.id));
    hide Store.Resolve, Components, ToLower, U.PartPath, U.StatePath, U.ValidUploadId, U.CanPlace, FileTree.CopyTo;
  }

  /** The part is gone; everything that was promised about it is void. */
  lemma GoneKeeps(cfg: Config, s: Sys, s': Sys)
    requires Inv(cfg, s)
    requires U.PartPath(cfg.server, cfg.id) !in s'.disk
    requires U.StatePath(cfg.server, cfg.id) in s'.disk ==>
               U.StatePath(cfg.server, cfg.id) in s.disk
               && s'.disk[U.StatePath(cfg.server, cfg.id)] == s.disk[U.StatePath(cfg.server, cfg.id)]
    requires s'.sent == s.sent && s'.replies == s.replies && s'.copying.None?
    requires s.published <= s'.published && s'.finishing <= s.finishing
    requires forall i :: 0 <= i < |s'.published| ==> s'.published[i] == cfg.bytes
    ensures Inv(cfg, s') && Grows(cfg, s, s')
  {
    assert PartOf(cfg, s').None?;
    assert StateOf(cfg, s').Some? ==> StateOf(cfg, s') == StateOf(cfg, s);
    hide U.Part, U.LoadState;
    forall n, r | (n, r) in s'.replies ensures ReplyOk(cfg, s', n, r) {
      assert ReplyOk(cfg, s, n, r);
    }
    forall n | n in s'.finishing ensures FinishingOk(cfg, s', n) {
      assert FinishingOk(cfg, s, n);
    }
    forall n | 0 <= n < |s'.sent| ensures RequestOk(cfg, s', s'.sent[n]) {
      assert RequestOk(cfg, s, s.sent[n]);
    }
  }

  lemma FinishKeeps(cfg: Config, s: Sys, n: nat, t: FileTree.Tree, fault: U.Fault)
    requires WellFormed(cfg) && Inv(cfg, s) && U.Tame(cfg.server, t, fault)
    ensures Inv(cfg, StepFinish(cfg, s, n, t, fault)) && Grows(cfg, s, StepFinish(cfg, s, n, t, fault))
  {
    if s.copying.None? && n in s.finishing {
      assert FinishingOk(cfg, s, n);
      FinishOnComplete(cfg, s, t, fault);
      var (d', r) := U.Finish(cfg.server, s.disk, t, cfg.id, fault);
      hide U.Finish, ToLower;
      var s1 := s.(disk := d', finishing := s.finishing - {n},
                   published := s.published + if r.Ok? then [PartOf(cfg, s).value] else []);
      if r.Err? && U.SameUpload(cfg.server, s.disk, d', cfg.id) {
        FrameKeeps(cfg, s, s1);
      } else {
        GoneKeeps(cfg, s, s1);
      }
      hide U.Part, U.LoadState;
      if r.Ok? {
        AnswerKeeps(cfg, s1, n, Finished(|cfg.bytes|, r.value));
      } else {
        AnswerKeeps(cfg, s1, n, Failed);
      }
    }
  }

  lemma HeadKeeps(cfg: Config, s: Sys, n: nat)
    requires WellFormed(cfg) && Inv(cfg, s)
    ensures Inv(cfg, Step(cfg, s, AnswerHead(n))) && Grows(cfg, s, Step(cfg, s, AnswerHead(n)))
  {
    hide U.Part, U.LoadState;
    if n < |s.sent| && s.sent[n].Head? {
      assert RequestOk(cfg, s, s.sent[n]);
      var offset := U.Offset(cfg.server, s.disk, cfg.id);
      AnswerKeeps(cfg, s, n, if offset.None? then NotFound else Size(offset.value.0));
    }
  }

  /** Every step of the world keeps the invariant. */
  lemma StepKeeps(cfg: Config, s: Sys, act: Act)
    requires WellFormed(cfg) && Inv(cfg, s) && TameAct(cfg, act)
    ensures Inv(cfg, Step(cfg, s, act)) && Grows(cfg, s, Step(cfg, s, act))
  {
    match act
    case Arrive(n, opens) => ArriveKeeps(cfg, s, n, opens);
    case CopyByte => CopyByteKeeps(cfg, s);
    case CopyFails =>
      if s.copying.Some? {
        FrameKeeps(cfg, s, s.(copying := None));
        AnswerKeeps(cfg, s.(copying := None), s.copying.value.request, Failed);
      }
    case CopyEnds => CopyEndsKeeps(cfg, s);
    case FinishNow(n, t, fault) => FinishKeeps(cfg, s, n, t, fault);
    case AnswerHead(n) => HeadKeeps(cfg, s, n);
    case Restart => FrameKeeps(cfg, s, Step(cfg, s, act));
    case Other(op) => OtherKeeps(cfg, s, op);
  }

  lemma SendKeeps(cfg: Config, s: Sys, r: Request)
    requires Inv(cfg, s) && RequestOk(cfg, s, r)
    requires r.Head? && r.since.Some? ==> Reached(cfg, s, r.since.value)
    ensures Inv(cfg, s.(sent := s.sent + [r]))
    ensures Grows(cfg, s, s.(sent := s.sent + [r]))
  {
    hide U.Part, U.LoadState;
    var s' := s.(sent := s.sent + [r]);
    forall n, reply | (n, reply) in s'.replies ensures ReplyOk(cfg, s', n, reply) {
      assert ReplyOk(cfg, s, n, reply);
    }
    forall n | n in s'.finishing ensures FinishingOk(cfg, s', n) {
      assert FinishingOk(cfg, s, n);
    }
    forall n | 0 <= n < |s'.sent| ensures RequestOk(cfg, s', s'.sent[n]) {
      assert n < |s.sent| ==> RequestOk(cfg, s, s.sent[n]);
    }
  }

  lemma HappenKeeps(cfg: Config, s: Sys, e: Event)
    requires WellFormed(cfg) && Inv(cfg, s) && (e.Does? ==> TameAct(cfg, e.act))
    ensures Inv(cfg, Happen(cfg, s, e)) && Grows(cfg, s, Happen(cfg, s, e))
  {
    match e
    case Sends(from, to) =>
      if from < to <= |cfg.bytes| {
        SendKeeps(cfg, s, Patch(from, cfg.bytes[from..to]));
      }
    case Asks =>
      var part := PartOf(cfg, s);
      SendKeeps(cfg, s, Head(if part.None? then None else Some(|part.value|)));
    case Does(act) => StepKeeps(cfg, s, act);
  }

  lemma StartHolds(cfg: Config, d: U.Disk)
    requires Created(cfg, d)
    ensures Inv(cfg, Start(d))
  {
  }

  lemma GrowsTransitive(cfg: Config, a: Sys, b: Sys, c: Sys)
    requires Grows(cfg, a, b) && Grows(cfg, b, c)
    ensures Grows(cfg, a, c)
  {
    hide PartOf;
  }

  // ---- Every run ---------------------------------------------------------------------------

  lemma {:induction false} RunKeeps(cfg: Config, s: Sys, es: seq<Event>)
    requires WellFormed(cfg) && Inv(cfg, s) && TameEvents(cfg, es)
    ensures Inv(cfg, Run(cfg, s, es)) && Grows(cfg, s, Run(cfg, s, es))
    decreases |es|
  {
    if es != [] {
      HappenKeeps(cfg, s, es[0]);
      RunKeeps(cfg, Happen(cfg, s, es[0]), es[1..]);
      GrowsTransitive(cfg, s, Happen(cfg, s, es[0]), Run(cfg, s, es));
    }
  }

  lemma {:induction false} RunConcat(cfg: Config, s: Sys, a: seq<Event>, b: seq<Event>)
    requires cfg.server.roots != []
    ensures Run(cfg, s, a + b) == Run(cfg, Run(cfg, s, a), b)
    decreases |a|
  {
    if a == [] {
      assert a + b == b;
    } else {
      assert (a + b)[1..] == a[1..] + b;
      RunConcat(cfg, Happen(cfg, s, a[0]), a[1..], b);
    }
  }

  /** The prefix invariant. In every run, with requests lost, cut short, delayed,
      duplicated and reordered, replies dropped, the daemon restarted and other
      uploads going on: whatever is stored is a prefix of the client's bytes, and
      from any moment to any later one it only grows at its end, until it is gone;
      once gone it does not come back. */
  lemma PrefixInEveryRun(cfg: Config, d: U.Disk, now: seq<Event>, later: seq<Event>)
    requires WellFormed(cfg) && Created(cfg, d) && TameEvents(cfg, now) && TameEvents(cfg, later)
    ensures var s, s' := Run(cfg, Start(d), now), Run(cfg, Start(d), now + later);
      && (PartOf(cfg, s).Some? ==> PartOf(cfg, s).value <= cfg.bytes)
      && (PartOf(cfg, s').Some? ==>
            PartOf(cfg, s).Some? && PartOf(cfg, s).value <= PartOf(cfg, s').value)
  {
    StartHolds(cfg, d);
    RunKeeps(cfg, Start(d), now);
    RunConcat(cfg, Start(d), now, later);
    RunKeeps(cfg, Run(cfg, Start(d), now), later);
  }

  /** Only the client's own bytes are ever published for this upload, in any run,
      and a 204 that carries a hash means that they were. No assumption about
      collisions of the hash is needed. */
  lemma OnlyTheBytesArePublished(cfg: Config, d: U.Disk, es: seq<Event>)
    requires WellFormed(cfg) && Created(cfg, d) && TameEvents(cfg, es)
    ensures var s := Run(cfg, Start(d), es);
      && (forall i :: 0 <= i < |s.published| ==> s.published[i] == cfg.bytes)
      && (forall n, offset, sum :: (n, Finished(offset, sum)) in s.replies ==>
            s.published != [] && sum == cfg.server.hash(cfg.bytes))
      && (forall n, offset, sum :: (n, Mismatched(offset, sum)) !in s.replies)
  {
    StartHolds(cfg, d);
    RunKeeps(cfg, Start(d), es);
    var s := Run(cfg, Start(d), es);
    hide Run;
    forall n, offset, sum | (n, Finished(offset, sum)) in s.replies
      ensures s.published != [] && sum == cfg.server.hash(cfg.bytes)
    {
      assert ReplyOk(cfg, s, n, Finished(offset, sum));
    }
  }

  /** Publishing is real: the step that adds to `published` leaves exactly those
      bytes at the path the declared target resolves to, or, if it had to copy, where a
      link under that name leads. */
  lemma PublishedIsOnDisk(cfg: Config, s: Sys, act: Act)
    requires WellFormed(cfg) && Inv(cfg, s) && TameAct(cfg, act)
    requires Step(cfg, s, act).published != s.published
    ensures act.FinishNow? && PutsInPlace(cfg, s, act)
  {
    assert act.FinishNow?;
    assert FinishingOk(cfg, s, act.request);
    var own, state := U.PartPath(cfg.server, cfg.id), U.StatePath(cfg.server, cfg.id);
    U.FinishPublishes(cfg.server, s.disk, act.t, cfg.id, act.fault);
    U.TameWritesOutside(cfg.server, s.disk, act.t, cfg.id, act.fault, own);
    U.TameWritesOutside(cfg.server, s.disk, act.t, cfg.id, act.fault, state);
    U.FinishWritesIs(cfg.server, s.disk, act.t, cfg.id, act.fault);
    hide U.Finish, U.FinishWrites, U.PlacedAt, U.Part, U.LoadState, Store.Resolve, Components;
  }

  /** The step leaves the client's bytes where the declared target leads. */
  predicate PutsInPlace(cfg: Config, s: Sys, act: Act)
    requires cfg.server.roots != [] && act.FinishNow?
  {
    var r := Store.Resolve(act.t, cfg.server.roots, cfg.target);
    && r.Ok?
    && var to := U.PlacedAt(act.t, Components(r.value), act.fault);
    var s' := Step(cfg, s, act);
    to.Some? && to.value in s'.disk && s'.disk[to.value] == U.Blob(cfg.bytes)
  }

  /** Whatever was published in a run was put in place by some step of it. */
  lemma {:induction false} PublishedByAStep(cfg: Config, s: Sys, es: seq<Event>) returns (i: nat)
    requires WellFormed(cfg) && Inv(cfg, s) && TameEvents(cfg, es)
    requires Run(cfg, s, es).published != s.published
    ensures i < |es| && es[i].Does? && es[i].act.FinishNow?
    ensures PutsInPlace(cfg, Run(cfg, s, es[..i]), es[i].act)
    decreases |es|
  {
    var s1 := Happen(cfg, s, es[0]);
    if s1.published != s.published {
      i := 0;
      PublishedIsOnDisk(cfg, s, es[0].act);
    } else {
      HappenKeeps(cfg, s, es[0]);
      i := PublishedByAStep(cfg, s1, es[1..]);
      i := i + 1;
      assert es[..i][0] == es[0] && es[..i][1..] == es[1..][..i - 1];
    }
  }

  // ---- The stepwise copy is the WriteChunk of the server -------------------------------------

  /** `k` bytes copied, one by one. */
  function CopyBytes(cfg: Config, s: Sys, k: nat): Sys
    decreases k
  {
    if k == 0 then s else CopyBytes(cfg, StepCopyByte(cfg, s), k - 1)
  }

  lemma {:induction false} CopyBytesAppends(cfg: Config, s: Sys, k: nat)
    requires s.copying.Some? && PartOf(cfg, s).Some?
    requires var n := s.copying.value.request;
      n < |s.sent| && s.sent[n].Patch? && s.copying.value.done + k <= |s.sent[n].data|
    ensures var Copying(n, done) := s.copying.value;
      CopyBytes(cfg, s, k)
      == if k == 0 then s
         else s.(disk := s.disk[U.PartPath(cfg.server, cfg.id)
                                := U.Blob(PartOf(cfg, s).value + s.sent[n].data[done..done + k])],
                 copying := Some(Copying(n, done + k)))
    decreases k
  {
    if k > 0 {
      var Copying(n, done) := s.copying.value;
      var data, part := s.sent[n].data, PartOf(cfg, s).value;
      var s1 := StepCopyByte(cfg, s);
      assert PartOf(cfg, s1) == Some(part + [data[done]]);
      CopyBytesAppends(cfg, s1, k - 1);
      assert [data[done]] + data[done + 1..done + k] == data[done..done + k];
      var grown := part + data[done..done + k];
      assert part + [data[done]] + data[done + 1..done + k] == grown;
      var path := U.PartPath(cfg.server, cfg.id);
      assert s1.disk[path := U.Blob(grown)] == s.disk[path := U.Blob(grown)];
      if k == 1 {
        assert data[done..done + k] == [data[done]];
      }
    }
  }

  /** The state after a handler entered WriteChunk and copied `k` bytes. */
  function Entered(cfg: Config, s: Sys, n: nat, k: nat): Sys {
    CopyBytes(cfg, StepArrive(cfg, s, n, true), k)
  }

  lemma EnteredState(cfg: Config, s: Sys, n: nat, k: nat)
    requires StepArrive(cfg, s, n, true).copying.Some? && s.copying.None?
    requires k <= |s.sent[n].data|
    ensures PartOf(cfg, s).Some? && StateOf(cfg, s).Some? && |PartOf(cfg, s).value| == s.sent[n].offset
    ensures Entered(cfg, s, n, k).(disk := s.disk) == s.(copying := Some(Copying(n, k)))
    ensures var part, e := PartOf(cfg, s).value, Entered(cfg, s, n, k);
      && PartOf(cfg, e) == Some(part + s.sent[n].data[..k])
      && StateOf(cfg, e) == StateOf(cfg, s)
      && e.disk == s.disk[U.PartPath(cfg.server, cfg.id) := U.Blob(part + s.sent[n].data[..k])]
  {
    var s1 := StepArrive(cfg, s, n, true);
    var part, data := PartOf(cfg, s).value, s.sent[n].data;
    CopyBytesAppends(cfg, s1, k);
    assert data[0..k] == data[..k] && part + data[..0] == part;
    U.FilesAreSeparate(cfg.server, cfg.id, cfg.id);
  }

  /** Entering WriteChunk, copying `k` bytes and failing, or copying all and
      returning, without anything in between, has exactly the effect on the disk of
      the WriteChunk operation, and answers what it answers. */
  lemma CopyRefinesWriteChunk(cfg: Config, s: Sys, n: nat, k: nat, fails: bool)
    requires WellFormed(cfg) && Inv(cfg, s)
    requires s.copying.None? && StepArrive(cfg, s, n, true).copying.Some?
    requires k <= |s.sent[n].data| && (!fails ==> k == |s.sent[n].data|)
    ensures var left := Step(cfg, Entered(cfg, s, n, k), if fails then CopyFails else CopyEnds);
      var (d', r) := U.WriteChunk(cfg.server, s.disk, cfg.id, s.sent[n].offset, s.sent[n].data,
                                  if fails then U.CopyStops(k) else U.NoFault);
      && left.copying.None? && left.disk == d'
      && match r
         case Err(_) => fails && left.replies == s.replies + {(n, Failed)}
         case Ok((offset, complete)) =>
           && !fails
           && (complete ==> left.finishing == s.finishing + {n} && left.replies == s.replies)
           && (!complete ==> left.finishing == s.finishing && left.replies == s.replies + {(n, Written(offset))})
  {
    assert RequestOk(cfg, s, s.sent[n]);
    EnteredState(cfg, s, n, k);
    hide Entered, U.PartPath, U.LoadState, U.Part, StepArrive;
    assert s.sent[n].data[..|s.sent[n].data|] == s.sent[n].data;
  }

  /** The other half: a PATCH is turned away at the door, answered as failed with nothing
      written, exactly when the WriteChunk operation fails without writing. */
  lemma ArrivalRefinesWriteChunk(cfg: Config, s: Sys, n: nat, opens: bool)
    requires Inv(cfg, s) && s.copying.None? && n < |s.sent| && s.sent[n].Patch?
    ensures var s' := StepArrive(cfg, s, n, opens);
      var (d', r) := U.WriteChunk(cfg.server, s.disk, cfg.id, s.sent[n].offset, s.sent[n].data,
                                  if opens then U.NoFault else U.OpenFails);
      && s'.disk == s.disk
      && (s'.copying.None? <==> r.Err? && d' == s.disk)
      && (s'.copying.None? ==> s' == Answer(s, n, Failed))
  {
    assert RequestOk(cfg, s, s.sent[n]);
    var part := PartOf(cfg, s);
    if part.Some? {
      var data := s.sent[n].data;
      assert |part.value + data[..|data|]| > |part.value|;
      var path := U.PartPath(cfg.server, cfg.id);
      assert s.disk[path].Blob? && s.disk[path].bytes == part.value;
      assert s.disk[path := U.Blob(part.value + data[..|data|])][path] != s.disk[path];
    }
    hide Inv;
  }
}
