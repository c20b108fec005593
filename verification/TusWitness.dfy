/** Schedules for any upload: one on which it succeeds at once, those on which it is
    stopped again and again and resumes, and one on which everything is put in place and
    the app reports failure all the same. */
module TusWitness {
  import opened Wrappers
  import opened Text
  import opened Paths
  import FileTree
  import Store
  import U = Uploads
  import opened TusProtocol
  import TusSafety
  import opened TusClient
  import opened Arithmetic

  function Copies(k: nat): seq<Act> {
    if k == 0 then [] else [CopyByte] + Copies(k - 1)
  }

  /** The n-th request, a PATCH of k bytes, handled in one go. */
  function Handled(n: nat, k: nat): seq<Act> {
    [Arrive(n, true)] + (Copies(k) + [CopyEnds])
  }

  lemma {:induction false} WorldConcat(cfg: Config, s: Sys, a: seq<Act>, b: seq<Act>)
    requires cfg.server.roots != []
    ensures World(cfg, s, a + b) == World(cfg, World(cfg, s, a), b)
    decreases |a|
  {
    hide Step;
    if a == [] {
      assert a + b == b;
    } else {
      assert (a + b)[1..] == a[1..] + b;
      WorldConcat(cfg, Step(cfg, s, a[0]), a[1..], b);
    }
  }

  lemma {:induction false} WorldCopies(cfg: Config, s: Sys, k: nat)
    requires cfg.server.roots != []
    ensures World(cfg, s, Copies(k)) == TusSafety.CopyBytes(cfg, s, k)
    decreases k
  {
    hide StepCopyByte;
    if k > 0 {
      WorldCopies(cfg, StepCopyByte(cfg, s), k - 1);
      assert ([CopyByte] + Copies(k - 1))[1..] == Copies(k - 1);
    }
  }

  /** Nothing under way, `n` bytes stored, nothing published. */
  ghost predicate Idle(cfg: Config, s: Sys, n: nat) {
    && n <= |cfg.bytes| && s.copying.None? && s.published == []
    && PartOf(cfg, s) == Some(cfg.bytes[..n])
    && StateOf(cfg, s) == Some(U.UploadState(cfg.target, |cfg.bytes|, ToLower(cfg.server.hash(cfg.bytes))))
  }

  /** One PATCH handled in one go. */
  lemma ChunkStored(cfg: Config, s: Sys, from: nat, to: nat)
    requires WellFormed(cfg) && Idle(cfg, s, from) && from < to <= |cfg.bytes|
    ensures var n := |s.sent|;
      var s' := World(cfg, SendPatch(cfg, s, from, to), Handled(n, to - from));
      && Idle(cfg, s', to)
      && s'.sent == SendPatch(cfg, s, from, to).sent
      && (to < |cfg.bytes| ==> (n, Written(to)) in s'.replies)
      && (to == |cfg.bytes| ==> n in s'.finishing)
  {
    var n, k := |s.sent|, to - from;
    var s1 := SendPatch(cfg, s, from, to);
    var data := cfg.bytes[from..to];
    assert PartOf(cfg, s1) == PartOf(cfg, s) && StateOf(cfg, s1) == StateOf(cfg, s);
    var s2 := StepArrive(cfg, s1, n, true);
    assert s2.copying.Some?;
    TusSafety.EnteredState(cfg, s1, n, k);
    var s3 := TusSafety.Entered(cfg, s1, n, k);
    assert data[..k] == data && cfg.bytes[..from] + data == cfg.bytes[..to];
    assert PartOf(cfg, s3) == Some(cfg.bytes[..to]) && StateOf(cfg, s3) == StateOf(cfg, s);
    assert s3.copying == Some(Copying(n, k)) && s3.sent == s1.sent && s3.published == [] by {
      assert s3.(disk := s1.disk) == s1.(copying := Some(Copying(n, k)));
    }
    var s4 := StepCopyEnds(cfg, s3);
    HandledIs(cfg, s1, n, k);
    hide World, Handled, TusSafety.Entered, U.Part, U.LoadState;
    assert PartOf(cfg, s4) == PartOf(cfg, s3) && StateOf(cfg, s4) == StateOf(cfg, s3) by { DiskSame(cfg, s3, s4); }
  }

  lemma DiskSame(cfg: Config, s: Sys, s': Sys)
    ensures s.disk == s'.disk ==> PartOf(cfg, s') == PartOf(cfg, s) && StateOf(cfg, s') == StateOf(cfg, s)
  {
  }

  lemma HandledIs(cfg: Config, s: Sys, n: nat, k: nat)
    requires cfg.server.roots != []
    ensures World(cfg, s, Handled(n, k)) == StepCopyEnds(cfg, TusSafety.Entered(cfg, s, n, k))
  {
    var s1 := StepArrive(cfg, s, n, true);
    assert Step(cfg, s, Arrive(n, true)) == s1;
    assert Handled(n, k)[1..] == Copies(k) + [CopyEnds];
    WorldConcat(cfg, s1, Copies(k), [CopyEnds]);
    WorldCopies(cfg, s1, k);
    var s2 := World(cfg, s1, Copies(k));
    assert [CopyEnds][1..] == [];
    assert World(cfg, s2, [CopyEnds]) == Step(cfg, s2, CopyEnds);
    hide StepArrive, StepCopyEnds, TusSafety.CopyBytes;
  }

  /** The tree takes the file: the target resolves, and its directory can be made. */
  predicate Takes(cfg: Config, t: FileTree.Tree)
    requires cfg.server.roots != []
  {
    var r := Store.Resolve(t, cfg.server.roots, cfg.target);
    r.Ok? && U.CanPlace(t, Components(r.value))
  }

  /** The whole part finished in one go. */
  lemma Finishes(cfg: Config, s: Sys, n: nat, t: FileTree.Tree)
    requires WellFormed(cfg) && Idle(cfg, s, |cfg.bytes|) && Takes(cfg, t)
    requires n in s.finishing && n < |s.sent| && s.sent[n].Patch?
    requires s.sent[n].offset + |s.sent[n].data| == |cfg.bytes|
    ensures var s' := Step(cfg, s, FinishNow(n, t, U.NoFault));
      && (n, Finished(|cfg.bytes|, cfg.server.hash(cfg.bytes))) in s'.replies
      && s'.published == [cfg.bytes] && s'.sent == s.sent && PartOf(cfg, s').None?
  {
    assert cfg.bytes[..|cfg.bytes|] == cfg.bytes;
    ToLowerIdempotent(cfg.server.hash(cfg.bytes));
    U.TargetApart(cfg.server, t, cfg.target, U.PartPath(cfg.server, cfg.id));
    hide Store.Resolve, Components, U.CanPlace, ToLower, U.PartPath, U.StatePath, U.ValidUploadId;
  }

  /** The last PATCH handled and finished in one go. */
  lemma LastStored(cfg: Config, s: Sys, from: nat, t: FileTree.Tree)
    requires WellFormed(cfg) && Idle(cfg, s, from) && from < |cfg.bytes| && Takes(cfg, t)
    ensures var n, k := |s.sent|, |cfg.bytes|;
      var s' := World(cfg, SendPatch(cfg, s, from, k), Handled(n, k - from) + [FinishNow(n, t, U.NoFault)]);
      && (n, Finished(k, cfg.server.hash(cfg.bytes))) in s'.replies
      && s'.published == [cfg.bytes] && s'.sent == SendPatch(cfg, s, from, k).sent && PartOf(cfg, s').None?
  {
    var n, k := |s.sent|, |cfg.bytes|;
    var s1 := SendPatch(cfg, s, from, k);
    ChunkStored(cfg, s, from, k);
    var s2 := World(cfg, s1, Handled(n, k - from));
    var last := FinishNow(n, t, U.NoFault);
    Finishes(cfg, s2, n, t);
    WorldConcat(cfg, s1, Handled(n, k - from), [last]);
    assert [last][1..] == [];
    assert World(cfg, s2, [last]) == Step(cfg, s2, last);
    hide World, Handled, Step, Idle, Takes, WellFormed, U.Part, U.LoadState;
  }

  lemma ExchangeIs(cfg: Config, s: Sys, schedule: seq<Window>)
    requires cfg.server.roots != [] && 0 < |s.sent| <= |schedule|
    ensures var n := |s.sent| - 1;
      var s' := World(cfg, s, schedule[n].acts);
      Exchange(cfg, s, schedule)
      == (s', if schedule[n].delivery.Some? && (n, schedule[n].delivery.value) in s'.replies then schedule[n].delivery else None)
  {
    hide World;
  }

  // ---- A schedule on which the upload succeeds ---------------------------------------------------

  /** A PATCH handled at once and answered, and finished if it is the last. */
  function PromptWindow(cfg: Config, chunk: nat, t: FileTree.Tree, from: nat, n: nat): Window
    requires from < |cfg.bytes|
  {
    var to := U.Min(from + chunk, |cfg.bytes|);
    if to < |cfg.bytes| then Window(Handled(n, to - from), Some(Written(to)))
    else Window(Handled(n, to - from) + [FinishNow(n, t, U.NoFault)], Some(Finished(to, cfg.server.hash(cfg.bytes))))
  }

  /** Every PATCH handled at once and answered. */
  function Prompt(cfg: Config, chunk: nat, t: FileTree.Tree, from: nat, n: nat): seq<Window>
    requires chunk > 0
    decreases |cfg.bytes| - from
  {
    if from >= |cfg.bytes| then []
    else [PromptWindow(cfg, chunk, t, from, n)] + Prompt(cfg, chunk, t, U.Min(from + chunk, |cfg.bytes|), n + 1)
  }

  /** The exchange of one window of the prompt schedule. */
  lemma PromptExchange(cfg: Config, chunk: nat, t: FileTree.Tree, s: Sys, from: nat, schedule: seq<Window>)
    requires WellFormed(cfg) && chunk > 0 && Takes(cfg, t) && Idle(cfg, s, from) && from < |cfg.bytes|
    requires |s.sent| < |schedule| && schedule[|s.sent|] == PromptWindow(cfg, chunk, t, from, |s.sent|)
    ensures var to := U.Min(from + chunk, |cfg.bytes|);
      var (s', h) := Exchange(cfg, SendPatch(cfg, s, from, to), schedule);
      && (to < |cfg.bytes| ==> h == Some(Written(to)) && Idle(cfg, s', to))
      && (to == |cfg.bytes| ==> h == Some(Finished(to, cfg.server.hash(cfg.bytes))) && s'.published == [cfg.bytes])
  {
    var n, to := |s.sent|, U.Min(from + chunk, |cfg.bytes|);
    if to < |cfg.bytes| {
      assert schedule[n] == Window(Handled(n, to - from), Some(Written(to)));
      hide *;
      WrittenExchange(cfg, s, from, to, schedule);
    } else {
      assert schedule[n]
        == Window(Handled(n, to - from) + [FinishNow(n, t, U.NoFault)], Some(Finished(to, cfg.server.hash(cfg.bytes))));
      hide *;
      FinishedExchange(cfg, t, s, from, schedule);
    }
  }

  lemma WrittenExchange(cfg: Config, s: Sys, from: nat, to: nat, schedule: seq<Window>)
    requires WellFormed(cfg) && Idle(cfg, s, from) && from < to < |cfg.bytes| && |s.sent| < |schedule|
    requires schedule[|s.sent|] == Window(Handled(|s.sent|, to - from), Some(Written(to)))
    ensures var (s', h) := Exchange(cfg, SendPatch(cfg, s, from, to), schedule);
      h == Some(Written(to)) && Idle(cfg, s', to)
  {
    assert |SendPatch(cfg, s, from, to).sent| == |s.sent| + 1;
    ExchangeIs(cfg, SendPatch(cfg, s, from, to), schedule);
    hide *;
    ChunkStored(cfg, s, from, to);
  }

  lemma FinishedExchange(cfg: Config, t: FileTree.Tree, s: Sys, from: nat, schedule: seq<Window>)
    requires WellFormed(cfg) && Idle(cfg, s, from) && from < |cfg.bytes| && Takes(cfg, t) && |s.sent| < |schedule|
    requires var n, to := |s.sent|, |cfg.bytes|;
      schedule[n]
      == Window(Handled(n, to - from) + [FinishNow(n, t, U.NoFault)], Some(Finished(to, cfg.server.hash(cfg.bytes))))
    ensures var (s', h) := Exchange(cfg, SendPatch(cfg, s, from, |cfg.bytes|), schedule);
      h == Some(Finished(|cfg.bytes|, cfg.server.hash(cfg.bytes))) && s'.published == [cfg.bytes]
  {
    assert |SendPatch(cfg, s, from, |cfg.bytes|).sent| == |s.sent| + 1;
    ExchangeIs(cfg, SendPatch(cfg, s, from, |cfg.bytes|), schedule);
    hide *;
    LastStored(cfg, s, from, t);
  }

  /** On the prompt schedule every upload of a non-empty file succeeds, with one PATCH
      for each chunk. */
  lemma {:induction false} PromptSucceeds(cfg: Config, chunk: nat, maxAttempts: nat, t: FileTree.Tree, schedule: seq<Window>,
                                         s: Sys, heard: seq<Option<Reply>>, from: nat, attempt: nat)
    requires WellFormed(cfg) && chunk > 0 && attempt <= maxAttempts && Takes(cfg, t)
    requires Idle(cfg, s, from) && from < |cfg.bytes| && |heard| == |s.sent| <= |schedule|
    requires schedule[|s.sent|..] == Prompt(cfg, chunk, t, from, |s.sent|)
    ensures var (out, s', heard') := Dialogue(cfg, chunk, maxAttempts, schedule, s, heard, from, attempt);
      && out == Uploaded(cfg.server.hash(cfg.bytes)) && s'.published == [cfg.bytes]
      && |s'.sent| == |schedule|
    decreases |cfg.bytes| - from
  {
    var n, to := |s.sent|, U.Min(from + chunk, |cfg.bytes|);
    PromptTail(cfg, chunk, t, from, n, schedule);
    PromptExchange(cfg, chunk, t, s, from, schedule);
    var (s1, h) := Exchange(cfg, SendPatch(cfg, s, from, to), schedule);
    DialogueStep(cfg, chunk, maxAttempts, schedule, s, heard, from, attempt);
    assert |s1.sent| == n + 1;
    hide Exchange, Idle, Takes, WellFormed, Dialogue, Resume, Prompt, SendPatch;
    if to < |cfg.bytes| {
      PromptSucceeds(cfg, chunk, maxAttempts, t, schedule, s1, heard + [h], to, attempt);
    }
  }

  lemma PromptTail(cfg: Config, chunk: nat, t: FileTree.Tree, from: nat, n: nat, schedule: seq<Window>)
    requires chunk > 0 && from < |cfg.bytes| && n <= |schedule| && schedule[n..] == Prompt(cfg, chunk, t, from, n)
    ensures var to := U.Min(from + chunk, |cfg.bytes|);
      && n < |schedule| && schedule[n] == PromptWindow(cfg, chunk, t, from, n)
      && schedule[n + 1..] == Prompt(cfg, chunk, t, to, n + 1)
      && (to == |cfg.bytes| ==> |schedule| == n + 1)
  {
    assert schedule[n] == schedule[n..][0] && schedule[n + 1..] == schedule[n..][1..];
    hide PromptWindow;
  }

  lemma {:induction false} PromptLength(cfg: Config, chunk: nat, t: FileTree.Tree, from: nat, n: nat)
    requires chunk > 0 && from < |cfg.bytes|
    ensures var k := |Prompt(cfg, chunk, t, from, n)|;
      k >= 1 && (k - 1) * chunk < |cfg.bytes| - from <= k * chunk
    decreases |cfg.bytes| - from
  {
    var to := U.Min(from + chunk, |cfg.bytes|);
    if to < |cfg.bytes| {
      PromptLength(cfg, chunk, t, to, n + 1);
      var k := |Prompt(cfg, chunk, t, to, n + 1)|;
      AddChunk(k - 1, chunk);
      AddChunk(k, chunk);
    } else {
      assert Prompt(cfg, chunk, t, to, n + 1) == [];
    }
  }

  lemma CeilIs(k: nat, length: nat, chunk: nat)
    requires chunk > 0 && k >= 1 && (k - 1) * chunk < length <= k * chunk
    ensures k == Chunks(length, chunk)
  {
    ChunksEnough(k - 1, length, chunk);
    var q := Chunks(length, chunk);
    QuotientFits(length + chunk - 1, chunk);
    if q > k {
      MulMonotone(k + 1, q, chunk);
      AddChunk(k, chunk);
    }
  }

  lemma QuotientFits(x: nat, c: nat)
    requires c > 0
    ensures (x / c) * c <= x
  {
    assert x == c * (x / c) + x % c;
  }

  /** So every non-empty file can be uploaded: there is a schedule on which upload
      returns its hash, with ceil(length / chunk) requests. */
  lemma UploadCanSucceed(cfg: Config, d: U.Disk, chunk: nat, maxAttempts: nat, t: FileTree.Tree)
    requires WellFormed(cfg) && Created(cfg, d) && chunk > 0 && maxAttempts >= 1 && Takes(cfg, t) && cfg.bytes != []
    ensures var schedule := Prompt(cfg, chunk, t, 0, 0);
      var (out, s, heard) := Dialogue(cfg, chunk, maxAttempts, schedule, Start(d), [], 0, 1);
      && out == Uploaded(cfg.server.hash(cfg.bytes)) && s.published == [cfg.bytes]
      && |s.sent| == Chunks(|cfg.bytes|, chunk)
  {
    assert Idle(cfg, Start(d), 0);
    PromptLength(cfg, chunk, t, 0, 0);
    CeilIs(|Prompt(cfg, chunk, t, 0, 0)|, |cfg.bytes|, chunk);
    hide Dialogue, Idle;
    PromptSucceeds(cfg, chunk, maxAttempts, t, Prompt(cfg, chunk, t, 0, 0), Start(d), [], 0, 1);
  }

  // ---- A schedule on which only the answer is lost -------------------------------------------------

  /** The whole file in one PATCH, handled, finished, and the answer lost; then a HEAD
      that is answered. */
  function AnswerLost(cfg: Config, t: FileTree.Tree): seq<Window> {
    [Window(Handled(0, |cfg.bytes|) + [FinishNow(0, t, U.NoFault)], None),
     Window([AnswerHead(1)], Some(NotFound))]
  }

  lemma FirstIsLost(cfg: Config, d: U.Disk, t: FileTree.Tree)
    requires WellFormed(cfg) && Created(cfg, d) && Takes(cfg, t) && cfg.bytes != []
    ensures var (s, h) := Exchange(cfg, SendPatch(cfg, Start(d), 0, |cfg.bytes|), AnswerLost(cfg, t));
      h == None && s.published == [cfg.bytes] && |s.sent| == 1 && PartOf(cfg, s).None?
  {
    assert Idle(cfg, Start(d), 0);
    var s1 := SendPatch(cfg, Start(d), 0, |cfg.bytes|);
    assert |s1.sent| == |AnswerLost(cfg, t)| - 1 == 1 && |Start(d).sent| == 0 && cfg.server.roots != [];
    assert AnswerLost(cfg, t)[0] == Window(Handled(0, |cfg.bytes|) + [FinishNow(0, t, U.NoFault)], None);
    hide *;
    LastStored(cfg, Start(d), 0, t);
    ExchangeIs(cfg, s1, AnswerLost(cfg, t));
  }

  lemma SecondIsHeard(cfg: Config, s: Sys, t: FileTree.Tree)
    requires cfg.server.roots != [] && |s.sent| == 1 && PartOf(cfg, s).None?
    ensures var (s', h) := Exchange(cfg, SendHead(cfg, s), AnswerLost(cfg, t));
      h == Some(NotFound) && s'.published == s.published
  {
    GoneIsNotFound(cfg, s);
    ExchangeIs(cfg, SendHead(cfg, s), AnswerLost(cfg, t));
    assert |SendHead(cfg, s).sent| == 2 && AnswerLost(cfg, t)[1] == Window([AnswerHead(1)], Some(NotFound));
    hide *;
  }

  /** The file is in place and the app reports failure: it asks where to resume, and
      there is no upload any more. */
  lemma LostAnswerFails(cfg: Config, d: U.Disk, chunk: nat, maxAttempts: nat, t: FileTree.Tree)
    requires WellFormed(cfg) && Created(cfg, d) && maxAttempts >= 1 && Takes(cfg, t) && 0 < |cfg.bytes| <= chunk
    ensures var (out, s, heard) := Dialogue(cfg, chunk, maxAttempts, AnswerLost(cfg, t), Start(d), [], 0, 1);
      && out == HeadRefused && s.published == [cfg.bytes]
      && heard == [None, Some(NotFound)]
  {
    var s0 := Start(d);
    FirstIsLost(cfg, d, t);
    SecondIsHeard(cfg, Exchange(cfg, SendPatch(cfg, s0, 0, |cfg.bytes|), AnswerLost(cfg, t)).0, t);
    DialogueStep(cfg, chunk, maxAttempts, AnswerLost(cfg, t), s0, [], 0, 1);
    assert U.Min(0 + chunk, |cfg.bytes|) == |cfg.bytes|;
    assert [None] + [Some(NotFound)] == [None, Some(NotFound)];
    hide Dialogue, Exchange, AnswerLost, SendPatch, SendHead, WellFormed, Created, Takes, Start;
  }

  lemma GoneIsNotFound(cfg: Config, s: Sys)
    requires cfg.server.roots != [] && |s.sent| == 1 && PartOf(cfg, s).None?
    ensures var s' := World(cfg, SendHead(cfg, s), [AnswerHead(1)]);
      (1, NotFound) in s'.replies && s'.published == s.published && s'.sent == SendHead(cfg, s).sent
  {
    DiskSame(cfg, s, SendHead(cfg, s));
    var s1 := SendHead(cfg, s);
    assert [AnswerHead(1)][1..] == [] && World(cfg, s1, [AnswerHead(1)]) == Step(cfg, s1, AnswerHead(1));
    hide U.Part, U.LoadState;
  }

  // ---- Schedules on which the upload is stopped and resumes -----------------------------------------

  /** The n-th request, a PATCH of which `k` bytes are stored before it breaks off. */
  function Stopped(n: nat, k: nat): seq<Act> {
    [Arrive(n, true)] + (Copies(k) + [CopyFails])
  }

  /** Each round but the last breaks off in its first PATCH, whose sender hears nothing and
      asks where to resume; the last is prompt. */
  function Resuming(cfg: Config, chunk: nat, t: FileTree.Tree, stops: seq<nat>, from: nat, n: nat): seq<Window>
    requires chunk > 0
    decreases |stops|
  {
    if stops == [] then Prompt(cfg, chunk, t, from, n)
    else
      [Window(Stopped(n, stops[0]), None), Window([AnswerHead(n + 1)], Some(Size(from + stops[0])))]
      + Resuming(cfg, chunk, t, stops[1..], from + stops[0], n + 2)
  }

  /** No PATCH stores more than a chunk, and something is always left. */
  predicate Fits(length: nat, chunk: nat, stops: seq<nat>, from: nat)
    decreases |stops|
  {
    from < length && (stops != [] ==> stops[0] <= chunk && Fits(length, chunk, stops[1..], from + stops[0]))
  }

  /** What a PATCH that breaks off leaves. */
  lemma StopLeaves(cfg: Config, s: Sys, from: nat, to: nat, k: nat)
    requires WellFormed(cfg) && Idle(cfg, s, from) && from < to <= |cfg.bytes| && from + k <= to
    ensures var s' := World(cfg, SendPatch(cfg, s, from, to), Stopped(|s.sent|, k));
      Idle(cfg, s', from + k) && s'.sent == SendPatch(cfg, s, from, to).sent
  {
    var n := |s.sent|;
    var s1 := SendPatch(cfg, s, from, to);
    var data := cfg.bytes[from..to];
    assert PartOf(cfg, s1) == PartOf(cfg, s) && StateOf(cfg, s1) == StateOf(cfg, s);
    assert StepArrive(cfg, s1, n, true).copying.Some?;
    TusSafety.EnteredState(cfg, s1, n, k);
    var s3 := TusSafety.Entered(cfg, s1, n, k);
    assert cfg.bytes[..from] + data[..k] == cfg.bytes[..from + k];
    assert s3.copying == Some(Copying(n, k)) && s3.sent == s1.sent && s3.published == [] by {
      assert s3.(disk := s1.disk) == s1.(copying := Some(Copying(n, k)));
    }
    var s4 := Step(cfg, s3, CopyFails);
    StoppedIs(cfg, s1, n, k);
    hide World, Stopped, TusSafety.Entered, U.Part, U.LoadState;
    assert PartOf(cfg, s4) == PartOf(cfg, s3) && StateOf(cfg, s4) == StateOf(cfg, s3) by { DiskSame(cfg, s3, s4); }
  }

  lemma StoppedIs(cfg: Config, s: Sys, n: nat, k: nat)
    requires cfg.server.roots != []
    ensures World(cfg, s, Stopped(n, k)) == Step(cfg, TusSafety.Entered(cfg, s, n, k), CopyFails)
  {
    var s1 := StepArrive(cfg, s, n, true);
    assert Step(cfg, s, Arrive(n, true)) == s1;
    assert Stopped(n, k)[1..] == Copies(k) + [CopyFails];
    WorldConcat(cfg, s1, Copies(k), [CopyFails]);
    WorldCopies(cfg, s1, k);
    var s2 := World(cfg, s1, Copies(k));
    assert [CopyFails][1..] == [];
    assert World(cfg, s2, [CopyFails]) == Step(cfg, s2, CopyFails);
    hide StepArrive, Step, TusSafety.CopyBytes;
  }

  /** A HEAD for an upload that is there is answered with what is stored. */
  lemma HeadAnswered(cfg: Config, s: Sys, m: nat)
    requires WellFormed(cfg) && Idle(cfg, s, m)
    ensures var n := |s.sent|;
      var s' := World(cfg, SendHead(cfg, s), [AnswerHead(n)]);
      (n, Size(m)) in s'.replies && Idle(cfg, s', m) && s'.sent == SendHead(cfg, s).sent
  {
    var n, s1 := |s.sent|, SendHead(cfg, s);
    DiskSame(cfg, s, s1);
    assert [AnswerHead(n)][1..] == [] && World(cfg, s1, [AnswerHead(n)]) == Step(cfg, s1, AnswerHead(n));
    DiskSame(cfg, s, Step(cfg, s1, AnswerHead(n)));
    hide U.Part, U.LoadState;
  }

  /** One round that breaks off. */
  lemma RoundStopped(cfg: Config, s: Sys, from: nat, to: nat, k: nat, schedule: seq<Window>)
    returns (s1: Sys, s2: Sys)
    requires WellFormed(cfg) && Idle(cfg, s, from) && from < to <= |cfg.bytes| && from + k <= to
    requires |s.sent| + 2 <= |schedule|
    requires schedule[|s.sent|] == Window(Stopped(|s.sent|, k), None)
    requires schedule[|s.sent| + 1] == Window([AnswerHead(|s.sent| + 1)], Some(Size(from + k)))
    ensures |s1.sent| == |s.sent| + 1 && |s2.sent| == |s.sent| + 2 && Idle(cfg, s2, from + k)
    ensures SendPatch(cfg, s, from, to).sent != [] && SendHead(cfg, s1).sent != []
    ensures Exchange(cfg, SendPatch(cfg, s, from, to), schedule) == (s1, None)
    ensures Exchange(cfg, SendHead(cfg, s1), schedule) == (s2, Some(Size(from + k)))
  {
    var sent := SendPatch(cfg, s, from, to);
    assert |sent.sent| == |s.sent| + 1;
    StopLeaves(cfg, s, from, to, k);
    ExchangeIs(cfg, sent, schedule);
    s1 := Exchange(cfg, sent, schedule).0;
    assert |SendHead(cfg, s1).sent| == |s.sent| + 2;
    HeadAnswered(cfg, s1, from + k);
    ExchangeIs(cfg, SendHead(cfg, s1), schedule);
    s2 := Exchange(cfg, SendHead(cfg, s1), schedule).0;
    hide *;
  }

  /** Such a round is one attempt, and the dialogue goes on where it was stopped. */
  lemma RoundResumes(cfg: Config, chunk: nat, maxAttempts: nat, s: Sys, heard: seq<Option<Reply>>, from: nat, k: nat,
                     schedule: seq<Window>, attempt: nat) returns (s2: Sys, heard2: seq<Option<Reply>>)
    requires WellFormed(cfg) && chunk > 0 && Idle(cfg, s, from) && k <= chunk && from + k < |cfg.bytes|
    requires |s.sent| + 2 <= |schedule| && |heard| == |s.sent| && attempt <= maxAttempts
    requires schedule[|s.sent|] == Window(Stopped(|s.sent|, k), None)
    requires schedule[|s.sent| + 1] == Window([AnswerHead(|s.sent| + 1)], Some(Size(from + k)))
    ensures Idle(cfg, s2, from + k) && |heard2| == |s2.sent| == |s.sent| + 2
    ensures Dialogue(cfg, chunk, maxAttempts, schedule, s, heard, from, attempt)
         == Dialogue(cfg, chunk, maxAttempts, schedule, s2, heard2, from + k, attempt + 1)
  {
    var to := U.Min(from + chunk, |cfg.bytes|);
    assert from < to <= |cfg.bytes| && from + k <= to && cfg.server.roots != [];
    hide *;
    var s1;
    s1, s2 := RoundStopped(cfg, s, from, to, k, schedule);
    UnheardStep(cfg, chunk, maxAttempts, schedule, s, heard, from, attempt, s1);
    heard2 := ResumeStep(cfg, chunk, maxAttempts, schedule, s1, heard + [None], attempt, s2, from + k);
  }

  lemma UnheardStep(cfg: Config, chunk: nat, maxAttempts: nat, schedule: seq<Window>, s: Sys, heard: seq<Option<Reply>>,
                    from: nat, attempt: nat, s1: Sys)
    requires cfg.server.roots != [] && chunk > 0 && |heard| == |s.sent| && attempt <= maxAttempts && from < |cfg.bytes|
    requires SendPatch(cfg, s, from, U.Min(from + chunk, |cfg.bytes|)).sent != [] && |s1.sent| == |s.sent| + 1
    requires Exchange(cfg, SendPatch(cfg, s, from, U.Min(from + chunk, |cfg.bytes|)), schedule) == (s1, None)
    ensures Dialogue(cfg, chunk, maxAttempts, schedule, s, heard, from, attempt)
         == Resume(cfg, chunk, maxAttempts, schedule, s1, heard + [None], attempt)
  {
    hide Exchange, Resume, SendPatch, U.Min;
  }

  lemma ResumeStep(cfg: Config, chunk: nat, maxAttempts: nat, schedule: seq<Window>, s: Sys, heard: seq<Option<Reply>>,
                   attempt: nat, s1: Sys, size: nat) returns (heard1: seq<Option<Reply>>)
    requires cfg.server.roots != [] && chunk > 0 && |heard| == |s.sent| && attempt <= maxAttempts
    requires SendHead(cfg, s).sent != [] && |s1.sent| == |s.sent| + 1
    requires Exchange(cfg, SendHead(cfg, s), schedule) == (s1, Some(Size(size)))
    ensures |heard1| == |s1.sent|
    ensures Resume(cfg, chunk, maxAttempts, schedule, s, heard, attempt)
         == Dialogue(cfg, chunk, maxAttempts, schedule, s1, heard1, size, attempt + 1)
  {
    heard1 := heard + [Some(Size(size))];
    hide Exchange, Dialogue, SendHead;
  }

  lemma NoStops(cfg: Config, chunk: nat, t: FileTree.Tree, from: nat, n: nat)
    requires chunk > 0
    ensures Resuming(cfg, chunk, t, [], from, n) == Prompt(cfg, chunk, t, from, n)
    ensures Fits(|cfg.bytes|, chunk, [], from) ==> from < |cfg.bytes|
  {
    hide Prompt;
  }

  lemma StopTail(cfg: Config, chunk: nat, t: FileTree.Tree, stops: seq<nat>, from: nat, n: nat, schedule: seq<Window>)
    requires chunk > 0 && stops != [] && n <= |schedule| && schedule[n..] == Resuming(cfg, chunk, t, stops, from, n)
    requires Fits(|cfg.bytes|, chunk, stops, from)
    ensures n + 2 <= |schedule|
    ensures stops[0] <= chunk && from + stops[0] < |cfg.bytes| && Fits(|cfg.bytes|, chunk, stops[1..], from + stops[0])
    ensures schedule[n] == Window(Stopped(n, stops[0]), None)
    ensures schedule[n + 1] == Window([AnswerHead(n + 1)], Some(Size(from + stops[0])))
    ensures schedule[n + 2..] == Resuming(cfg, chunk, t, stops[1..], from + stops[0], n + 2)
  {
    var rest := schedule[n..];
    assert |rest| >= 2 && rest[2..] == Resuming(cfg, chunk, t, stops[1..], from + stops[0], n + 2);
    assert schedule[n] == rest[0] && schedule[n + 1] == rest[1] && schedule[n + 2..] == rest[2..];
    hide Stopped;
  }

  lemma {:induction false} ResumingSucceeds(cfg: Config, chunk: nat, maxAttempts: nat, t: FileTree.Tree, stops: seq<nat>,
                                           schedule: seq<Window>, s: Sys, heard: seq<Option<Reply>>, from: nat, attempt: nat)
    requires WellFormed(cfg) && chunk > 0 && 1 <= attempt && attempt + |stops| <= maxAttempts && Takes(cfg, t)
    requires Idle(cfg, s, from) && Fits(|cfg.bytes|, chunk, stops, from) && |heard| == |s.sent| <= |schedule|
    requires schedule[|s.sent|..] == Resuming(cfg, chunk, t, stops, from, |s.sent|)
    ensures var (out, s', heard') := Dialogue(cfg, chunk, maxAttempts, schedule, s, heard, from, attempt);
      out == Uploaded(cfg.server.hash(cfg.bytes)) && s'.published == [cfg.bytes] && |s'.sent| == |schedule|
    decreases |stops|
  {
    hide *;
    if stops == [] {
      NoStops(cfg, chunk, t, from, |s.sent|);
      PromptSucceeds(cfg, chunk, maxAttempts, t, schedule, s, heard, from, attempt);
    } else {
      StopTail(cfg, chunk, t, stops, from, |s.sent|, schedule);
      var s2, heard2 := RoundResumes(cfg, chunk, maxAttempts, s, heard, from, stops[0], schedule, attempt);
      ResumingSucceeds(cfg, chunk, maxAttempts, t, stops[1..], schedule, s2, heard2, from + stops[0], attempt + 1);
    }
  }

  /** An upload that is stopped fewer times than it has attempts, each time anywhere in a
      chunk, resumes where it was stopped and returns the hash. */
  lemma UploadResumes(cfg: Config, d: U.Disk, chunk: nat, maxAttempts: nat, t: FileTree.Tree, stops: seq<nat>)
    requires WellFormed(cfg) && Created(cfg, d) && chunk > 0 && Takes(cfg, t)
    requires |stops| < maxAttempts && Fits(|cfg.bytes|, chunk, stops, 0)
    ensures var schedule := Resuming(cfg, chunk, t, stops, 0, 0);
      var (out, s, heard) := Dialogue(cfg, chunk, maxAttempts, schedule, Start(d), [], 0, 1);
      out == Uploaded(cfg.server.hash(cfg.bytes)) && s.published == [cfg.bytes] && |s.sent| == |schedule|
  {
    assert Idle(cfg, Start(d), 0);
    hide Dialogue, Idle, Fits, Takes, WellFormed;
    ResumingSucceeds(cfg, chunk, maxAttempts, t, stops, Resuming(cfg, chunk, t, stops, 0, 0), Start(d), [], 0, 1);
  }
}
