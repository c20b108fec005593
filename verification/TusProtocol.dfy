/** The upload protocol as a transition system: what one client has sent, the
    handlers of the daemon, the disk, and every other client beside them.

    Nothing that was sent is ever taken back, and any message may be handled any
    number of times, at any later moment, or never: that covers loss, delay,
    duplication and reordering of requests. A reply that was produced may be
    delivered or not. */
module TusProtocol {
  import opened Wrappers
  import opened Text
  import opened Paths
  import FileTree
  import Store
  import U = Uploads

  /** One upload: its id, the client's bytes, and the target it declared. */
  datatype Config = Config(server: U.Config, id: string, bytes: seq<Byte>, target: string)

  /** A request. A HEAD remembers, for the proofs only, how much of the part was
      stored when it was sent (None: no part any more). */
  datatype Request =
    | Patch(offset: nat, data: seq<Byte>)
    | Head(since: Option<nat>)

  /** What the handlers answer. `Written` and `Finished` are the two 204s, the
      second with the server's hash, `Mismatched` is the 422. */
  datatype Reply =
    | Written(offset: nat)
    | Finished(offset: nat, sum: string)
    | Mismatched(offset: nat, sum: string)
    | Failed
    | Size(size: nat)
    | NotFound

  /** A WriteChunk in the middle of its copy, with the mutex held: which request,
      and how many of its bytes are in the file. */
  datatype Copying = Copying(request: nat, done: nat)

  datatype Sys = Sys(
    disk: U.Disk,
    copying: Option<Copying>,
    finishing: set<nat>,           // handlers between WriteChunk and Finish
    sent: seq<Request>,
    replies: set<(nat, Reply)>,
    published: seq<seq<Byte>>)     // what Finish put in place for this id, in order

  /** One step of the world around the client. */
  datatype Act =
    | Arrive(request: nat, opens: bool)    // a PATCH handler enters WriteChunk
    | CopyByte
    | CopyFails
    | CopyEnds
    | FinishNow(request: nat, t: FileTree.Tree, fault: U.Fault)
    | AnswerHead(request: nat)             // takes no lock
    | Restart                              // the daemon dies and comes back
    | Other(op: U.Op)                      // a critical section for another id

  function PartOf(cfg: Config, s: Sys): Option<seq<Byte>> {
    U.Part(cfg.server, s.disk, cfg.id)
  }

  function StateOf(cfg: Config, s: Sys): Option<U.UploadState> {
    U.LoadState(cfg.server, s.disk, cfg.id)
  }

  function Answer(s: Sys, request: nat, reply: Reply): Sys {
    s.(replies := s.replies + {(request, reply)})
  }

  /** The daemon and the other clients. A step that cannot happen changes nothing. */
  function Step(cfg: Config, s: Sys, act: Act): Sys
    requires cfg.server.roots != []
  {
    match act
    case Arrive(n, opens) => StepArrive(cfg, s, n, opens)
    case CopyByte => StepCopyByte(cfg, s)
    case CopyFails =>
      if s.copying.None? then s
      else Answer(s.(copying := None), s.copying.value.request, Failed)
    case CopyEnds => StepCopyEnds(cfg, s)
    case FinishNow(n, t, fault) => StepFinish(cfg, s, n, t, fault)
    case AnswerHead(n) =>
      if n >= |s.sent| || !s.sent[n].Head? then s
      else
        var offset := U.Offset(cfg.server, s.disk, cfg.id);
        Answer(s, n, if offset.None? then NotFound else Size(offset.value.0))
    case Restart => s.(copying := None, finishing := {})
    case Other(op) =>
      if s.copying.Some? || op.id == cfg.id then s
      else s.(disk := U.Apply(cfg.server, s.disk, op))
  }

  function StepArrive(cfg: Config, s: Sys, n: nat, opens: bool): Sys {
    if s.copying.Some? || n >= |s.sent| || !s.sent[n].Patch? then s
    else
      var part := PartOf(cfg, s);
      if StateOf(cfg, s).None? || part.None? || !opens || |part.value| != s.sent[n].offset then
        Answer(s, n, Failed)
      else s.(copying := Some(Copying(n, 0)))
  }

  function StepCopyByte(cfg: Config, s: Sys): Sys {
    if s.copying.None? then s
    else
      var Copying(n, done) := s.copying.value;
      var part := PartOf(cfg, s);
      if n >= |s.sent| || !s.sent[n].Patch? || done >= |s.sent[n].data| || part.None? then s
      else s.(
        disk := s.disk[U.PartPath(cfg.server, cfg.id) := U.Blob(part.value + [s.sent[n].data[done]])],
        copying := Some(Copying(n, done + 1)))
  }

  /** The body is exhausted: WriteChunk returns. */
  function StepCopyEnds(cfg: Config, s: Sys): Sys {
    if s.copying.None? then s
    else
      var Copying(n, done) := s.copying.value;
      var st := StateOf(cfg, s);
      if n >= |s.sent| || !s.sent[n].Patch? || done < |s.sent[n].data| || st.None? then s
      else
        var newOffset := s.sent[n].offset + done;
        var free := s.(copying := None);
        if newOffset > st.value.length then Answer(free, n, Failed)
        else if newOffset < st.value.length then Answer(free, n, Written(newOffset))
        else free.(finishing := free.finishing + {n})
  }

  function StepFinish(cfg: Config, s: Sys, n: nat, t: FileTree.Tree, fault: U.Fault): Sys
    requires cfg.server.roots != []
  {
    if s.copying.Some? || n !in s.finishing || n >= |s.sent| || !s.sent[n].Patch? then s
    else
      var (disk', r) := U.Finish(cfg.server, s.disk, t, cfg.id, fault);
      var s' := s.(disk := disk', finishing := s.finishing - {n});
      var offset := s.sent[n].offset + |s.sent[n].data|;
      match r
      case Ok(sum) =>
        Answer(s'.(published := s.published + [U.Part(cfg.server, s.disk, cfg.id).value]), n, Finished(offset, sum))
      case Err(Mismatch(sum)) => Answer(s', n, Mismatched(offset, sum))
      case Err(_) => Answer(s', n, Failed)
  }

  // ---- What the client adds ---------------------------------------------------------

  function SendPatch(cfg: Config, s: Sys, from: nat, to: nat): Sys
    requires from <= to <= |cfg.bytes|
  {
    s.(sent := s.sent + [Patch(from, cfg.bytes[from..to])])
  }

  function SendHead(cfg: Config, s: Sys): Sys {
    var part := PartOf(cfg, s);
    s.(sent := s.sent + [Head(if part.None? then None else Some(|part.value|))])
  }

  /** A run: the client sends any pieces of its bytes, the world does anything. */
  datatype Event = Sends(from: nat, to: nat) | Asks | Does(act: Act)

  function Happen(cfg: Config, s: Sys, e: Event): Sys
    requires cfg.server.roots != []
  {
    match e
    case Sends(from, to) => if from < to <= |cfg.bytes| then SendPatch(cfg, s, from, to) else s
    case Asks => SendHead(cfg, s)
    case Does(act) => Step(cfg, s, act)
  }

  function Run(cfg: Config, s: Sys, es: seq<Event>): Sys
    requires cfg.server.roots != []
    decreases |es|
  {
    if es == [] then s else Run(cfg, Happen(cfg, s, es[0]), es[1..])
  }

  /** Right after the upload was created: an empty part and its state. */
  ghost predicate Created(cfg: Config, d: U.Disk) {
    && U.Part(cfg.server, d, cfg.id) == Some([])
    && U.LoadState(cfg.server, d, cfg.id)
       == Some(U.UploadState(cfg.target, |cfg.bytes|, ToLower(cfg.server.hash(cfg.bytes))))
  }

  function Start(d: U.Disk): Sys {
    Sys(d, None, {}, [], {}, [])
  }

  // ---- The invariant ------------------------------------------------------------------

  ghost predicate WellFormed(cfg: Config) {
    U.RootsApart(cfg.server) && U.ValidUploadId(cfg.id)
  }

  /** The upload directory is where it is, and no copy made in this step follows a link
      into it. */
  ghost predicate TameAct(cfg: Config, act: Act)
    requires cfg.server.roots != []
  {
    && (act.FinishNow? ==> U.Tame(cfg.server, act.t, act.fault))
    && (act.Other? ==> U.SettledOp(cfg.server, act.op))
    && (act.Other? && act.op.DoFinish? ==> U.Tame(cfg.server, act.op.t, act.op.fault))
  }

  ghost predicate TameEvents(cfg: Config, es: seq<Event>)
    requires cfg.server.roots != []
  {
    forall i :: 0 <= i < |es| && es[i].Does? ==> TameAct(cfg, es[i].act)
  }

  /** The part is a prefix of the client's bytes; the state is what was declared. */
  ghost predicate StoredOk(cfg: Config, s: Sys) {
    && (PartOf(cfg, s).Some? ==> PartOf(cfg, s).value <= cfg.bytes)
    && (U.PartPath(cfg.server, cfg.id) in s.disk ==> s.disk[U.PartPath(cfg.server, cfg.id)].Blob?)
    && (PartOf(cfg, s).Some? ==> StateOf(cfg, s).Some?)
    && (StateOf(cfg, s).Some? ==>
          StateOf(cfg, s).value
          == U.UploadState(cfg.target, |cfg.bytes|, ToLower(cfg.server.hash(cfg.bytes))))
  }

  ghost predicate RequestOk(cfg: Config, s: Sys, r: Request) {
    match r
    case Patch(offset, data) =>
      data != [] && offset + |data| <= |cfg.bytes| && data == cfg.bytes[offset..offset + |data|]
    case Head(since) => since.None? ==> PartOf(cfg, s).None?
  }

  /** At least `n` bytes are stored, or the part is gone for good. */
  ghost predicate Reached(cfg: Config, s: Sys, n: nat) {
    PartOf(cfg, s).Some? ==> |PartOf(cfg, s).value| >= n
  }

  ghost predicate CopyingOk(cfg: Config, s: Sys, c: Copying) {
    && c.request < |s.sent| && s.sent[c.request].Patch?
    && PartOf(cfg, s).Some?
    && c.done <= |s.sent[c.request].data|
    && |PartOf(cfg, s).value| == s.sent[c.request].offset + c.done
  }

  ghost predicate FinishingOk(cfg: Config, s: Sys, n: nat) {
    && n < |s.sent| && s.sent[n].Patch?
    && s.sent[n].offset + |s.sent[n].data| == |cfg.bytes|
    && (PartOf(cfg, s).Some? ==> PartOf(cfg, s).value == cfg.bytes)
  }

  ghost predicate ReplyOk(cfg: Config, s: Sys, n: nat, reply: Reply) {
    && n < |s.sent|
    && match reply
       case Written(offset) =>
         && s.sent[n].Patch? && offset == s.sent[n].offset + |s.sent[n].data|
         && offset < |cfg.bytes| && Reached(cfg, s, offset)
       case Finished(offset, sum) =>
         && s.sent[n].Patch? && offset == s.sent[n].offset + |s.sent[n].data| == |cfg.bytes|
         && sum == cfg.server.hash(cfg.bytes)
         && s.published != []
       case Mismatched(_, _) => false
       case Failed => true
       case Size(size) =>
         && s.sent[n].Head? && s.sent[n].since.Some?
         && s.sent[n].since.value <= size <= |cfg.bytes| && Reached(cfg, s, size)
       case NotFound => s.sent[n].Head?
  }

  ghost predicate Inv(cfg: Config, s: Sys) {
    && StoredOk(cfg, s)
    && (forall n :: 0 <= n < |s.sent| ==> RequestOk(cfg, s, s.sent[n]))
    && (forall n :: 0 <= n < |s.sent| && s.sent[n].Head? && s.sent[n].since.Some? ==>
          Reached(cfg, s, s.sent[n].since.value))
    && (s.copying.Some? ==> CopyingOk(cfg, s, s.copying.value))
    && (forall n :: n in s.finishing ==> FinishingOk(cfg, s, n))
    && (forall n, r :: (n, r) in s.replies ==> ReplyOk(cfg, s, n, r))
    && (forall i :: 0 <= i < |s.published| ==> s.published[i] == cfg.bytes)
  }

  /** What never goes back from one state of a run to a later one: a part that is
      still there has only grown at its end, and sent requests, replies and
      published contents stay. */
  ghost predicate Grows(cfg: Config, s: Sys, s': Sys) {
    && (PartOf(cfg, s').Some? ==> PartOf(cfg, s).Some? && PartOf(cfg, s).value <= PartOf(cfg, s').value)
    && s.sent <= s'.sent
    && s.replies <= s'.replies
    && s.published <= s'.published
  }
}
