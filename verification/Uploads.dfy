/** The server side of resumable uploads: part files, state files and the disk. */
module Uploads {
  import opened Wrappers
  import opened Text
  import opened Paths
  import FileTree
  import Store

  /** The state file of an upload. */
  datatype UploadState = UploadState(target: string, length: nat, expected: string)

  /** The contents of a file: bytes, or a state record in its JSON form. */
  datatype Content = Blob(bytes: seq<Byte>) | Meta(state: UploadState)

  /** The regular files, by path. */
  type Disk = map<seq<string>, Content>

  type Hash = seq<Byte> -> string

  /** What the uploader was built with. `hash` is SHA-256 in hexadecimal, left
      uninterpreted; `dir` is where the directory of the part and state files really is,
      links followed, which need not be the path it was given by. */
  datatype Config = Config(hash: Hash, roots: seq<string>, dir: seq<string>)

  // ---- Upload ids --------------------------------------------------------------

  predicate IsIdChar(c: char) {
    'a' <= c <= 'z' || 'A' <= c <= 'Z' || '0' <= c <= '9' || c == '-' || c == '_'
  }

  predicate ValidUploadId(id: string) {
    id != "" && |id| <= 64 && forall i :: 0 <= i < |id| ==> IsIdChar(id[i])
  }

  function PartPath(cfg: Config, id: string): seq<string> {
    cfg.dir + [id + ".part"]
  }

  function StatePath(cfg: Config, id: string): seq<string> {
    cfg.dir + [id + ".json"]
  }

  /** No two ids share a file, and no part file is a state file. */
  lemma FilesAreSeparate(cfg: Config, a: string, b: string)
    ensures PartPath(cfg, a) == PartPath(cfg, b) <==> a == b
    ensures StatePath(cfg, a) == StatePath(cfg, b) <==> a == b
    ensures PartPath(cfg, a) != StatePath(cfg, b)
  {
    var k := |cfg.dir|;
    assert PartPath(cfg, a)[k] == a + ".part" && PartPath(cfg, b)[k] == b + ".part";
    assert StatePath(cfg, a)[k] == a + ".json" && StatePath(cfg, b)[k] == b + ".json";
    assert (a + ".part")[..|a + ".part"| - 5] == a && (b + ".part")[..|b + ".part"| - 5] == b;
    assert (a + ".json")[..|a + ".json"| - 5] == a && (b + ".json")[..|b + ".json"| - 5] == b;
    assert (a + ".part")[|a + ".part"| - 1] == 't' && (b + ".json")[|b + ".json"| - 1] == 'n';
  }

  // ---- Reading a part and its state ---------------------------------------------

  function LoadState(cfg: Config, d: Disk, id: string): Option<UploadState> {
    var p := StatePath(cfg, id);
    if ValidUploadId(id) && p in d && d[p].Meta? then Some(d[p].state) else None
  }

  function Part(cfg: Config, d: Disk, id: string): Option<seq<Byte>> {
    var p := PartPath(cfg, id);
    if p in d && d[p].Blob? then Some(d[p].bytes) else None
  }

  /** Offset: the bytes stored so far and the declared length. */
  function Offset(cfg: Config, d: Disk, id: string): Option<(nat, nat)> {
    var st := LoadState(cfg, d, id);
    var part := Part(cfg, d, id);
    if st.None? || part.None? then None else Some((|part.value|, st.value.length))
  }

  // ---- The operations, as functions of the disk -----------------------------------

  datatype Failure = Refused | Conflict(size: nat) | Mismatch(sum: string)

  /** Where an operation on the disk may fail. `CopyStops(n)`: reading the body or
      writing the file fails after n bytes. */
  datatype Fault =
    | NoFault
    | OpenFails
    | StateNotWritten
    | CopyStops(n: nat)
    | MkdirFails
    | RenameFails              // and the copy that replaces it works, if its target opens
    | RenameAndCopyFail(copied: Option<nat>)   // Some(n): the copy's target got opened and n bytes written
    | StateStays               // removing the state file fails at the very end

  function Min(a: nat, b: nat): nat {
    if a < b then a else b
  }

  function Create(cfg: Config, d: Disk, t: FileTree.Tree, id: string, target: string, length: int,
                  expected: string, fault: Fault): (Disk, Option<Failure>)
    requires cfg.roots != []
  {
    if length < 0 then (d, Some(Refused))
    else if Store.Resolve(t, cfg.roots, target).Err? then (d, Some(Refused))
    else if !ValidUploadId(id) then (d, Some(Refused))
    else if fault.OpenFails? || PartPath(cfg, id) in d then (d, Some(Refused))
    else
      var d1 := d[PartPath(cfg, id) := Blob([])];
      if fault.StateNotWritten? then (d1[StatePath(cfg, id) := Blob([])], Some(Refused))
      else (d1[StatePath(cfg, id) := Meta(UploadState(target, length, ToLower(expected)))], None)
  }

  /** How many bytes of a body of length `n` reach the file. */
  function Reached(n: nat, fault: Fault): nat {
    if fault.CopyStops? then Min(n, fault.n) else n
  }

  /** WriteChunk: the new offset and whether the upload is complete. */
  function WriteChunk(cfg: Config, d: Disk, id: string, offset: nat, body: seq<Byte>, fault: Fault)
    : (Disk, Result<(nat, bool), Failure>)
  {
    var st := LoadState(cfg, d, id);
    var part := Part(cfg, d, id);
    if st.None? || part.None? || fault.OpenFails? then (d, Err(Refused))
    else if |part.value| != offset then (d, Err(Conflict(|part.value|)))
    else
      var grown := part.value + body[..Reached(|body|, fault)];
      var d' := d[PartPath(cfg, id) := Blob(grown)];
      if fault.CopyStops? || |grown| > st.value.length then (d', Err(Refused))
      else (d', Ok((|grown|, |grown| == st.value.length)))
  }

  function Drop(cfg: Config, d: Disk, id: string): Disk {
    d - {PartPath(cfg, id)} - {StatePath(cfg, id)}
  }

  /** Rename fails and the target of the copy is opened for writing. */
  predicate Copying(fault: Fault) {
    fault.RenameFails? || (fault.RenameAndCopyFail? && fault.copied.Some?)
  }

  /** The directory of the target is there or can be made, and the target is not one. */
  predicate CanPlace(t: FileTree.Tree, target: seq<string>) {
    FileTree.CanMake(t, FileTree.Parent(target)) && !FileTree.IsDirectoryAt(t, target)
  }

  /** The file a copy of the part writes, and what is in it then. A copy onto the part
      itself empties it before reading it. */
  function Copied(cfg: Config, d: Disk, id: string, part: seq<Byte>, to: seq<string>, fault: Fault): Disk {
    d[to := Blob(if to == PartPath(cfg, id) then []
                 else if fault.RenameAndCopyFail? && fault.copied.Some? then part[..Min(|part|, fault.copied.value)]
                 else part)]
  }

  /** Putting a verified part in place: rename, or else a copy, which follows links. */
  function Place(cfg: Config, d: Disk, t: FileTree.Tree, id: string, target: seq<string>, part: seq<Byte>, sum: string,
                 fault: Fault): (Disk, Result<string, Failure>)
  {
    if fault.MkdirFails? || !CanPlace(t, target) then (d, Err(Refused))
    else if fault.RenameFails? || fault.RenameAndCopyFail? then
      var to := FileTree.CopyTo(t, target);
      if to.None? || !Copying(fault) then (d, Err(Refused))
      else
        var d' := Copied(cfg, d, id, part, to.value, fault);
        if fault.RenameFails? then (Drop(cfg, d', id), Ok(sum)) else (d', Err(Refused))
    else if fault.StateStays? then (d[target := Blob(part)] - {PartPath(cfg, id)}, Ok(sum))
    else (Drop(cfg, d[target := Blob(part)], id), Ok(sum))
  }

  /** Finish: the hash of what was published, or why nothing was. */
  function Finish(cfg: Config, d: Disk, t: FileTree.Tree, id: string, fault: Fault)
    : (Disk, Result<string, Failure>)
    requires cfg.roots != []
  {
    var st := LoadState(cfg, d, id);
    var part := Part(cfg, d, id);
    if st.None? || part.None? || fault.OpenFails? then (d, Err(Refused))
    else
      var sum := cfg.hash(part.value);
      if st.value.expected != "" && !EqualFold(sum, st.value.expected) then
        (Drop(cfg, d, id), Err(Mismatch(sum)))
      else
        match Store.Resolve(t, cfg.roots, st.value.target)
        case Err(_) => (Drop(cfg, d, id), Err(Refused))
        case Ok(path) => Place(cfg, d, t, id, Components(path), part.value, sum, fault)
  }

  function Discard(cfg: Config, d: Disk, id: string): Disk {
    Drop(cfg, d, id)
  }

  // ---- What single operations guarantee -------------------------------------------

  /** No root overlaps the upload directory: neither lies below the other. */
  ghost predicate RootsApart(cfg: Config) {
    && Store.ValidRoots(cfg.roots)
    && forall i :: 0 <= i < |cfg.roots| ==>
         && !(Components(cfg.roots[i]) <= cfg.dir)
         && !(cfg.dir <= Components(cfg.roots[i]))
  }

  /** A tree in which the uploader's directory is the real directory `dir`, with nothing
      in it but files and directories. */
  ghost predicate Settled(cfg: Config, t: FileTree.Tree) {
    && FileTree.IsDirectoryPath(t, cfg.dir)
    && forall p :: p in t && IsEntryOf(cfg.dir, p) ==> t[p].File? || t[p].Directory?
  }

  predicate IsEntryOf(dir: seq<string>, p: seq<string>) {
    dir <= p && |p| == |dir| + 1
  }

  /** Whatever path NewUploader was given: where it leads is such a directory. */
  lemma WhereItLeads(t: FileTree.Tree, given: seq<string>)
    requires IsNames(given) && FileTree.CanMake(t, given) && FileTree.EvalComponents(t, given).Real?
    ensures FileTree.IsDirectoryPath(t, FileTree.EvalComponents(t, given).path)
  {
    assert FileTree.IsDirectoryPath(t, []);
    FileTree.WalkEndsReal(t, [], given, 0);
    var d := FileTree.EvalComponents(t, given).path;
    assert d[..|d|] == d;
  }

  /** Where an accepted upload goes is never a file of the upload directory. */
  lemma TargetApart(cfg: Config, t: FileTree.Tree, target: string, file: seq<string>)
    requires RootsApart(cfg)
    requires Store.Resolve(t, cfg.roots, target).Ok?
    requires |file| == |cfg.dir| + 1 && cfg.dir <= file
    ensures Components(Store.Resolve(t, cfg.roots, target).value) != file
  {
    Store.AcceptedIsCleanAndBelow(t, cfg.roots, target);
    hide Store.Resolve, Components;
    var p := Components(Store.Resolve(t, cfg.roots, target).value);
    var i :| 0 <= i < |cfg.roots| && Components(cfg.roots[i]) <= p;
    NotInside(Components(cfg.roots[i]), cfg.dir, p, file);
  }

  lemma NotInside(root: seq<string>, dir: seq<string>, p: seq<string>, file: seq<string>)
    requires !(root <= dir) && !(dir <= root)
    requires root <= p && dir <= file
    ensures p != file
  {
    if p == file {
      PrefixesNest(root, dir, p);
    }
  }

  /** The file that putting a part in place writes, if any. */
  function PlacedAt(t: FileTree.Tree, target: seq<string>, fault: Fault): Option<seq<string>> {
    if fault.MkdirFails? || !CanPlace(t, target) then None
    else if fault.RenameFails? || fault.RenameAndCopyFail? then
      if Copying(fault) then FileTree.CopyTo(t, target) else None
    else Some(target)
  }

  /** The file that a Finish writes, if it gets so far. */
  function FinishWrites(cfg: Config, d: Disk, t: FileTree.Tree, id: string, fault: Fault): Option<seq<string>>
    requires cfg.roots != []
  {
    var st, part := LoadState(cfg, d, id), Part(cfg, d, id);
    if st.None? || part.None? || fault.OpenFails? then None
    else if st.value.expected != "" && !EqualFold(cfg.hash(part.value), st.value.expected) then None
    else
      match Store.Resolve(t, cfg.roots, st.value.target)
      case Err(_) => None
      case Ok(path) => PlacedAt(t, Components(path), fault)
  }

  lemma FinishWritesIs(cfg: Config, d: Disk, t: FileTree.Tree, id: string, fault: Fault)
    requires cfg.roots != [] && FinishWrites(cfg, d, t, id, fault).Some?
    ensures LoadState(cfg, d, id).Some? && Store.Resolve(t, cfg.roots, LoadState(cfg, d, id).value.target).Ok?
    ensures FinishWrites(cfg, d, t, id, fault)
         == PlacedAt(t, Components(Store.Resolve(t, cfg.roots, LoadState(cfg, d, id).value.target).value), fault)
  {
    hide Store.Resolve, Components, PlacedAt;
  }

  /** A mismatch is reported exactly when a hash was declared and the part has another
      one, the case of letters aside; it leaves no part and no state, and every other
      file, the target included, as it was. A success had a part, a state and the declared
      hash, if one was declared; what it published is at the path the target resolves to,
      or, if it had to copy, where a link under that name leads, and is there afterwards
      exactly if that is not one of the upload's own two files, which are removed. */
  lemma FinishExactly(cfg: Config, d: Disk, t: FileTree.Tree, id: string, fault: Fault)
    requires RootsApart(cfg)
    ensures var (d', r) := Finish(cfg, d, t, id, fault);
      var st, part := LoadState(cfg, d, id), Part(cfg, d, id);
      && (r.Err? && r.error.Mismatch? <==>
            && !fault.OpenFails? && st.Some? && part.Some?
            && st.value.expected != "" && !SameText(cfg.hash(part.value), st.value.expected))
      && (r.Err? && r.error.Mismatch? ==>
            && PartPath(cfg, id) !in d' && StatePath(cfg, id) !in d'
            && forall p :: p != PartPath(cfg, id) && p != StatePath(cfg, id) ==>
                 (p in d' <==> p in d) && (p in d ==> d'[p] == d[p]))
      && (r.Ok? ==>
            && part.Some? && st.Some? && r.value == cfg.hash(part.value)
            && (st.value.expected != "" ==> SameText(cfg.hash(part.value), st.value.expected))
            && Store.Resolve(t, cfg.roots, st.value.target).Ok?
            && FinishWrites(cfg, d, t, id, fault).Some?
            && var to := FinishWrites(cfg, d, t, id, fault).value;
            && (!fault.RenameFails? ==> to == Components(Store.Resolve(t, cfg.roots, st.value.target).value))
            && (to in d' && d'[to] == Blob(part.value) <==>
                  to != PartPath(cfg, id) && !(to == StatePath(cfg, id) && !fault.StateStays?))
            && Part(cfg, d', id).None?)
  {
    DropIs(cfg, d, id);
    if LoadState(cfg, d, id).Some? && Part(cfg, d, id).Some? {
      EqualFoldExactly(cfg.hash(Part(cfg, d, id).value), LoadState(cfg, d, id).value.expected);
    }
    if Finish(cfg, d, t, id, fault).1.Ok? {
      FinishPublishes(cfg, d, t, id, fault);
    }
    hide Components, EqualFold, SameText, ToLower, Place, FinishWrites, Drop, PartPath, StatePath, LoadState, Part;
    PlaceNeverMismatches(cfg, d, t, id, fault);
  }

  lemma DropIs(cfg: Config, d: Disk, id: string)
    ensures var d' := Drop(cfg, d, id);
      && PartPath(cfg, id) !in d' && StatePath(cfg, id) !in d'
      && forall p :: p != PartPath(cfg, id) && p != StatePath(cfg, id) ==>
           (p in d' <==> p in d) && (p in d ==> d'[p] == d[p])
  {
    hide PartPath, StatePath;
  }

  lemma PlaceNeverMismatches(cfg: Config, d: Disk, t: FileTree.Tree, id: string, fault: Fault)
    ensures forall target, part, sum :: Place(cfg, d, t, id, target, part, sum, fault).1.Err? ==>
      Place(cfg, d, t, id, target, part, sum, fault).1.error == Refused
  {
    hide CanPlace, FileTree.CopyTo, Copied, Drop;
  }

  lemma FinishPublishes(cfg: Config, d: Disk, t: FileTree.Tree, id: string, fault: Fault)
    requires RootsApart(cfg)
    requires Finish(cfg, d, t, id, fault).1.Ok?
    ensures var (d', r) := Finish(cfg, d, t, id, fault);
      && Part(cfg, d, id).Some? && LoadState(cfg, d, id).Some?
      && var st, part := LoadState(cfg, d, id).value, Part(cfg, d, id).value;
      && r.value == cfg.hash(part)
      && (st.expected != "" ==> EqualFold(cfg.hash(part), st.expected))
      && Store.Resolve(t, cfg.roots, st.target).Ok?
      && FinishWrites(cfg, d, t, id, fault).Some?
      && var to := FinishWrites(cfg, d, t, id, fault).value;
      && (!fault.RenameFails? ==> to == Components(Store.Resolve(t, cfg.roots, st.target).value))
      && (to in d' && d'[to] == Blob(part) <==> to != PartPath(cfg, id) && !(to == StatePath(cfg, id) && !fault.StateStays?))
      && Part(cfg, d', id).None?
  {
    hide Components, EqualFold, ToLower, CanPlace, FileTree.CopyTo, Store.Resolve;
    TargetApart(cfg, t, LoadState(cfg, d, id).value.target, PartPath(cfg, id));
    TargetApart(cfg, t, LoadState(cfg, d, id).value.target, StatePath(cfg, id));
    FilesAreSeparate(cfg, id, id);
  }

  /** The tree shows the files of an upload that are on the disk. */
  ghost predicate Sees(cfg: Config, t: FileTree.Tree, d: Disk, id: string) {
    && (PartPath(cfg, id) in d ==> PartPath(cfg, id) in t)
    && (StatePath(cfg, id) in d ==> StatePath(cfg, id) in t)
  }

  /** Where a copy is made, nothing was before, or it is the accepted path itself. */
  lemma CopyIsNew(cfg: Config, d: Disk, t: FileTree.Tree, id: string, fault: Fault, other: string)
    requires RootsApart(cfg) && Store.Grounded(t) && Sees(cfg, t, d, other)
    requires Copying(fault) && FinishWrites(cfg, d, t, id, fault).Some?
    ensures var to := FinishWrites(cfg, d, t, id, fault).value;
      to == PartPath(cfg, other) || to == StatePath(cfg, other) ==> to !in d
  {
    var target := LoadState(cfg, d, id).value.target;
    var p := Components(Store.Resolve(t, cfg.roots, target).value);
    TargetApart(cfg, t, target, PartPath(cfg, other));
    TargetApart(cfg, t, target, StatePath(cfg, other));
    Store.CopyGoes(t, cfg.roots, target);
    assert FinishWrites(cfg, d, t, id, fault) == FileTree.CopyTo(t, p);
  }

  /** So on a tree that shows the upload's own files, what was published is there, with
      the declared hash if one was declared, and the part is gone. */
  lemma PublishedIsThere(cfg: Config, d: Disk, t: FileTree.Tree, id: string, fault: Fault)
    requires RootsApart(cfg) && Settled(cfg, t) && Store.Grounded(t) && Sees(cfg, t, d, id)
    requires Finish(cfg, d, t, id, fault).1.Ok?
    ensures var (d', r) := Finish(cfg, d, t, id, fault);
      && Part(cfg, d, id).Some? && LoadState(cfg, d, id).Some?
      && var st, part := LoadState(cfg, d, id).value, Part(cfg, d, id).value;
      && r.value == cfg.hash(part) && (st.expected != "" ==> SameText(cfg.hash(part), st.expected))
      && FinishWrites(cfg, d, t, id, fault).Some?
      && var to := FinishWrites(cfg, d, t, id, fault).value;
      to in d' && d'[to] == Blob(part) && Part(cfg, d', id).None?
  {
    FinishExactly(cfg, d, t, id, fault);
    var target := LoadState(cfg, d, id).value.target;
    TargetApart(cfg, t, target, PartPath(cfg, id));
    TargetApart(cfg, t, target, StatePath(cfg, id));
    if fault.RenameFails? {
      CopyIsNew(cfg, d, t, id, fault, id);
    }
    hide Finish, FinishWrites, Store.Resolve, Components, EqualFold, SameText, LoadState, Part;
  }

  // ---- Isolation over whole runs -------------------------------------------------------

  /** One critical section of the uploader, for any id and any outcome of the disk
      operations. `id` of a Discard may be any text without a slash. */
  datatype Op =
    | DoCreate(id: string, t: FileTree.Tree, target: string, length: int, expected: string, fault: Fault)
    | DoWrite(id: string, offset: nat, body: seq<Byte>, fault: Fault)
    | DoFinish(id: string, t: FileTree.Tree, fault: Fault)
    | DoDiscard(id: string)

  function Apply(cfg: Config, d: Disk, op: Op): Disk
    requires cfg.roots != []
  {
    match op
    case DoCreate(id, t, target, length, expected, fault) =>
      Create(cfg, d, t, id, target, length, expected, fault).0
    case DoWrite(id, offset, body, fault) => WriteChunk(cfg, d, id, offset, body, fault).0
    case DoFinish(id, t, fault) => Finish(cfg, d, t, id, fault).0
    case DoDiscard(id) => Discard(cfg, d, id)
  }

  function Run(cfg: Config, d: Disk, ops: seq<Op>): Disk
    requires cfg.roots != []
    decreases |ops|
  {
    if ops == [] then d else Run(cfg, Apply(cfg, d, ops[0]), ops[1..])
  }

  /** The operations on one upload, in order. */
  function Only(ops: seq<Op>, id: string): seq<Op> {
    if ops == [] then []
    else if ops[0].id == id then [ops[0]] + Only(ops[1..], id)
    else Only(ops[1..], id)
  }

  /** Two disks hold the same part file and the same state file for an upload. */
  ghost predicate SameUpload(cfg: Config, d: Disk, e: Disk, id: string) {
    && (PartPath(cfg, id) in d <==> PartPath(cfg, id) in e)
    && (PartPath(cfg, id) in d ==> d[PartPath(cfg, id)] == e[PartPath(cfg, id)])
    && (StatePath(cfg, id) in d <==> StatePath(cfg, id) in e)
    && (StatePath(cfg, id) in d ==> d[StatePath(cfg, id)] == e[StatePath(cfg, id)])
  }

  lemma FinishTargetApart(cfg: Config, d: Disk, op: Op, id: string)
    requires RootsApart(cfg) && op.DoFinish? && LoadState(cfg, d, op.id).Some?
    requires Store.Resolve(op.t, cfg.roots, LoadState(cfg, d, op.id).value.target).Ok?
    ensures var p := Components(Store.Resolve(op.t, cfg.roots, LoadState(cfg, d, op.id).value.target).value);
      p != PartPath(cfg, id) && p != StatePath(cfg, id)
  {
    var target := LoadState(cfg, d, op.id).value.target;
    TargetApart(cfg, op.t, target, PartPath(cfg, id));
    TargetApart(cfg, op.t, target, StatePath(cfg, id));
  }

  /** A copy that follows a link onto a file of another upload. */
  predicate Strays(cfg: Config, d: Disk, op: Op, id: string)
    requires cfg.roots != []
  {
    && op.DoFinish? && Copying(op.fault)
    && var to := FinishWrites(cfg, d, op.t, op.id, op.fault);
    to == Some(PartPath(cfg, id)) || to == Some(StatePath(cfg, id))
  }

  /** The tree an operation uses, if any, has the upload directory where it is. */
  ghost predicate SettledOp(cfg: Config, op: Op) {
    op.DoCreate? || op.DoFinish? ==> Settled(cfg, op.t)
  }

  /** Any other operation on one upload leaves the files of another one alone. */
  lemma OthersUntouched(cfg: Config, d: Disk, op: Op, id: string)
    requires RootsApart(cfg) && SettledOp(cfg, op) && op.id != id && !Strays(cfg, d, op, id)
    ensures SameUpload(cfg, d, Apply(cfg, d, op), id)
  {
    FilesAreSeparate(cfg, op.id, id);
    FilesAreSeparate(cfg, id, op.id);
    hide Store.Resolve, Components, EqualFold, ToLower, PartPath, StatePath, ValidUploadId, CanPlace, FileTree.CopyTo;
    if op.DoFinish? {
      FinishLeavesOthers(cfg, d, op, id);
    }
  }

  lemma FinishLeavesOthers(cfg: Config, d: Disk, op: Op, id: string)
    requires RootsApart(cfg) && op.id != id && op.DoFinish? && !Strays(cfg, d, op, id)
    ensures SameUpload(cfg, d, Finish(cfg, d, op.t, op.id, op.fault).0, id)
  {
    FilesAreSeparate(cfg, op.id, id);
    FilesAreSeparate(cfg, id, op.id);
    hide Store.Resolve, Components, EqualFold, ToLower, PartPath, StatePath, ValidUploadId, CanPlace, FileTree.CopyTo;
    if LoadState(cfg, d, op.id).Some? && Store.Resolve(op.t, cfg.roots, LoadState(cfg, d, op.id).value.target).Ok? {
      FinishTargetApart(cfg, d, op, id);
    }
  }

  /** Exactly so: on a tree that shows the other upload's files, an operation leaves
      them alone if and only if it is not such a copy. */
  lemma OthersUntouchedExactly(cfg: Config, d: Disk, op: Op, id: string)
    requires RootsApart(cfg) && SettledOp(cfg, op) && op.id != id
    requires op.DoFinish? ==> Store.Grounded(op.t) && Sees(cfg, op.t, d, id)
    ensures SameUpload(cfg, d, Apply(cfg, d, op), id) <==> !Strays(cfg, d, op, id)
  {
    if Strays(cfg, d, op, id) {
      CopyIsNew(cfg, d, op.t, op.id, op.fault, id);
      StraysCreates(cfg, d, op, id);
    } else {
      OthersUntouched(cfg, d, op, id);
    }
  }

  lemma StraysCreates(cfg: Config, d: Disk, op: Op, id: string)
    requires RootsApart(cfg) && op.id != id && Strays(cfg, d, op, id)
    ensures FinishWrites(cfg, d, op.t, op.id, op.fault).value in Apply(cfg, d, op)
  {
    FilesAreSeparate(cfg, op.id, id);
    FilesAreSeparate(cfg, id, op.id);
    hide Store.Resolve, Components, EqualFold, ToLower, PartPath, StatePath, ValidUploadId, CanPlace, FileTree.CopyTo;
  }

  /** What an operation does to its own upload depends on that upload's files only. */
  lemma OwnFilesDecide(cfg: Config, d: Disk, e: Disk, op: Op)
    requires RootsApart(cfg) && SameUpload(cfg, d, e, op.id)
    ensures SameUpload(cfg, Apply(cfg, d, op), Apply(cfg, e, op), op.id)
  {
    FilesAreSeparate(cfg, op.id, op.id);
    hide Store.Resolve, Components, EqualFold, ToLower, PartPath, StatePath, ValidUploadId, CanPlace, FileTree.CopyTo;
  }

  /** No operation on another upload strays onto this one in the whole run. */
  predicate NeverStrays(cfg: Config, d: Disk, ops: seq<Op>, id: string)
    requires cfg.roots != []
    decreases |ops|
  {
    ops != [] ==>
      && (ops[0].id != id ==> !Strays(cfg, d, ops[0], id))
      && NeverStrays(cfg, Apply(cfg, d, ops[0]), ops[1..], id)
  }

  /** Isolation over every run without such copies: the files of an upload end up
      exactly as if no operation on any other upload had happened. */
  lemma {:induction false} Isolation(cfg: Config, d: Disk, e: Disk, ops: seq<Op>, id: string)
    requires RootsApart(cfg) && SameUpload(cfg, d, e, id) && NeverStrays(cfg, d, ops, id)
    requires forall i :: 0 <= i < |ops| ==> SettledOp(cfg, ops[i])
    ensures SameUpload(cfg, Run(cfg, d, ops), Run(cfg, e, Only(ops, id)), id)
    decreases |ops|
  {
    hide Apply, SameUpload, Strays, SettledOp;
    if ops != [] {
      var d', rest := Apply(cfg, d, ops[0]), ops[1..];
      if ops[0].id == id {
        OwnFilesDecide(cfg, d, e, ops[0]);
        assert Only(ops, id)[1..] == Only(rest, id);
        Isolation(cfg, d', Apply(cfg, e, ops[0]), rest, id);
      } else {
        OthersUntouched(cfg, d, ops[0], id);
        SameTransitive(cfg, d', d, e, id);
        Isolation(cfg, d', e, rest, id);
      }
    }
  }

  lemma SameTransitive(cfg: Config, a: Disk, b: Disk, c: Disk, id: string)
    requires SameUpload(cfg, b, a, id) && SameUpload(cfg, b, c, id)
    ensures SameUpload(cfg, a, c, id)
  {
    hide PartPath, StatePath;
  }

  // ---- Paths and places ---------------------------------------------------------------------

  /** In a settled tree the files of the upload directory name themselves. */
  lemma FilesNameThemselves(cfg: Config, t: FileTree.Tree, file: seq<string>)
    requires Settled(cfg, t) && IsEntryOf(cfg.dir, file)
    ensures FileTree.Entry(t, file) == Some(file)
  {
    assert FileTree.Parent(file) == cfg.dir && file == cfg.dir + [file[|cfg.dir|]];
    FileTree.RealPathIsFixed(t, cfg.dir);
    hide FileTree.EvalComponents;
  }

  /** Then no accepted path is a file of the upload directory, under that or any other
      name. */
  lemma NoTargetIsInside(cfg: Config, t: FileTree.Tree, target: string, file: seq<string>)
    requires RootsApart(cfg) && Settled(cfg, t) && Store.Resolve(t, cfg.roots, target).Ok? && IsEntryOf(cfg.dir, file)
    ensures FileTree.Entry(t, Components(Store.Resolve(t, cfg.roots, target).value)) != FileTree.Entry(t, file)
  {
    FilesNameThemselves(cfg, t, file);
    Store.AcceptedEntry(t, cfg.roots, target);
    TargetApart(cfg, t, target, file);
    hide *;
  }

  /** No root is the upload directory, above it or an entry of it. The root "/" accepts
      only itself. */
  ghost predicate DirIsClear(cfg: Config) {
    forall i :: 0 <= i < |cfg.roots| && cfg.roots[i] != "/" ==>
      !(Components(cfg.roots[i]) <= cfg.dir) && !IsEntryOf(cfg.dir, Components(cfg.roots[i]))
  }

  /** Exactly: no accepted path is an entry of the upload directory if and only if no root
      is that directory, above it or an entry of it. */
  lemma ClearExactly(cfg: Config, t: FileTree.Tree)
    requires Store.ValidRoots(cfg.roots) && Store.NoNul(t, cfg.roots) && Settled(cfg, t)
    ensures DirIsClear(cfg) <==>
      forall target: string, file: seq<string> :: Store.Resolve(t, cfg.roots, target).Ok? && IsEntryOf(cfg.dir, file) ==>
        FileTree.Entry(t, Components(Store.Resolve(t, cfg.roots, target).value)) != FileTree.Entry(t, file)
  {
    if DirIsClear(cfg) {
      forall target: string, file: seq<string> | Store.Resolve(t, cfg.roots, target).Ok? && IsEntryOf(cfg.dir, file)
        ensures FileTree.Entry(t, Components(Store.Resolve(t, cfg.roots, target).value)) != FileTree.Entry(t, file)
      {
        ClearKeepsOut(cfg, t, target, file);
      }
    } else {
      var target, file := UnclearLetsIn(cfg, t);
    }
  }

  lemma ClearKeepsOut(cfg: Config, t: FileTree.Tree, target: string, file: seq<string>)
    requires Store.ValidRoots(cfg.roots) && Settled(cfg, t) && DirIsClear(cfg)
    requires Store.Resolve(t, cfg.roots, target).Ok? && IsEntryOf(cfg.dir, file)
    ensures FileTree.Entry(t, Components(Store.Resolve(t, cfg.roots, target).value)) != FileTree.Entry(t, file)
  {
    FilesNameThemselves(cfg, t, file);
    Store.AcceptedEntry(t, cfg.roots, target);
    Store.AcceptedIsCleanAndBelow(t, cfg.roots, target);
    NothingBelowIsClear(cfg, file);
    hide *;
  }

  lemma NothingBelowIsClear(cfg: Config, file: seq<string>)
    requires DirIsClear(cfg) && IsEntryOf(cfg.dir, file)
    ensures !Store.Below(cfg.roots, file)
  {
    hide Components;
    forall i | 0 <= i < |cfg.roots| ensures !(Components(cfg.roots[i]) <= file && (cfg.roots[i] == "/" ==> file == [])) {
      AtOrAboveEntry(Components(cfg.roots[i]), cfg.dir, file);
    }
  }

  lemma AtOrAboveEntry(root: seq<string>, dir: seq<string>, file: seq<string>)
    requires IsEntryOf(dir, file)
    ensures root <= file ==> root <= dir || root == file
  {
    assert root <= file && |root| <= |dir| ==> root == file[..|root|] == dir[..|root|];
  }

  lemma UnclearLetsIn(cfg: Config, t: FileTree.Tree) returns (target: string, file: seq<string>)
    requires Store.ValidRoots(cfg.roots) && Store.NoNul(t, cfg.roots) && Settled(cfg, t) && !DirIsClear(cfg)
    ensures Store.Resolve(t, cfg.roots, target).Ok? && IsEntryOf(cfg.dir, file)
    ensures FileTree.Entry(t, Components(Store.Resolve(t, cfg.roots, target).value)) == FileTree.Entry(t, file)
  {
    var i :| 0 <= i < |cfg.roots| && cfg.roots[i] != "/"
          && (Components(cfg.roots[i]) <= cfg.dir || IsEntryOf(cfg.dir, Components(cfg.roots[i])));
    var root := Components(cfg.roots[i]);
    if root <= cfg.dir {
      var c := "a.part";
      file := cfg.dir + [c];
      target := Render(file);
      ComponentsRender(file);
      DirHasNoNul(cfg, t, c);
      assert root <= file;
      Store.EntryAccepted(t, cfg.roots, target, cfg.dir, c);
    } else {
      file := root;
      target := cfg.roots[i];
      var c := root[|cfg.dir|];
      assert file == cfg.dir + [c];
      ComponentsAreNames(target);
      Store.EntryAccepted(t, cfg.roots, target, cfg.dir, c);
      ComponentsRender(file);
    }
  }

  lemma DirHasNoNul(cfg: Config, t: FileTree.Tree, c: string)
    requires Store.NoNul(t, cfg.roots) && FileTree.IsDirectoryPath(t, cfg.dir) && '\0' !in c
    ensures '\0' !in Render(cfg.dir + [c])
  {
    forall n | n in cfg.dir + [c] ensures '\0' !in n {
      if n in cfg.dir {
        assert cfg.dir[..|cfg.dir|] == cfg.dir;
        assert cfg.dir in t;
      }
    }
    Store.RenderFrom(cfg.dir + [c], '\0');
  }

  /** The path alone does not tell. If NewUploader is given a path that leads, by a link,
      to a directory below a root, then an accepted path is the same file as the part of
      an upload, however far apart the two paths are. */
  lemma LinkedDirectoryOverlaps(t: FileTree.Tree, roots: seq<string>, given: seq<string>, dir: seq<string>, i: nat, c: string)
    requires Store.ValidRoots(roots) && Store.NoNul(t, roots) && IsName(c) && '\0' !in c
    requires FileTree.EvalComponents(t, given) == FileTree.Real(dir) && FileTree.IsDirectoryPath(t, dir)
    requires i < |roots| && roots[i] != "/" && Components(roots[i]) <= dir
    requires dir + [c] in t ==> t[dir + [c]].File?
    ensures var r := Store.Resolve(t, roots, Render(dir + [c]));
      && r == Ok(Render(dir + [c]))
      && FileTree.Entry(t, given + [c]) == FileTree.Entry(t, Components(r.value)) == Some(dir + [c])
  {
    var file := dir + [c];
    ComponentsRender(file);
    DirHasNoNul(Config((b: seq<Byte>) => "", roots, dir), t, c);
    assert Components(roots[i]) <= file;
    FileTree.RenderStarts(file);
    Store.EntryAccepted(t, roots, Render(file), dir, c);
    FileTree.RealPathIsFixed(t, dir);
    assert FileTree.Parent(given + [c]) == given && FileTree.Parent(file) == dir;
    hide Store.Resolve, Components, Render, FileTree.EvalComponents;
  }

  // ---- When copies cannot stray ----------------------------------------------------------

  ghost predicate Inside(cfg: Config, p: seq<string>) {
    cfg.dir <= p && |p| > |cfg.dir|
  }

  /** No link that an accepted path ends in leads into the upload directory. */
  ghost predicate LinksStayOut(cfg: Config, t: FileTree.Tree)
    requires cfg.roots != []
  {
    forall target: string ::
      Store.Resolve(t, cfg.roots, target).Ok? && CanPlace(t, Components(Store.Resolve(t, cfg.roots, target).value)) ==>
        var to := FileTree.CopyTo(t, Components(Store.Resolve(t, cfg.roots, target).value));
        to.Some? ==> !Inside(cfg, to.value)
  }

  /** The upload directory is where it is, and rename works or the links of the tree stay
      out: known before the call. */
  ghost predicate Tame(cfg: Config, t: FileTree.Tree, fault: Fault)
    requires cfg.roots != []
  {
    Settled(cfg, t) && (Copying(fault) ==> LinksStayOut(cfg, t))
  }

  /** A tame Finish writes nothing of the upload directory. */
  lemma TameWritesOutside(cfg: Config, d: Disk, t: FileTree.Tree, id: string, fault: Fault, file: seq<string>)
    requires RootsApart(cfg) && Tame(cfg, t, fault)
    requires cfg.dir <= file && |file| == |cfg.dir| + 1
    ensures FinishWrites(cfg, d, t, id, fault) != Some(file)
  {
    var st := LoadState(cfg, d, id);
    if st.Some? && Store.Resolve(t, cfg.roots, st.value.target).Ok? {
      TargetApart(cfg, t, st.value.target, file);
    }
    hide Store.Resolve, Components, EqualFold, CanPlace, FileTree.CopyTo, LoadState, Part;
  }

  lemma TameNeverStrays(cfg: Config, d: Disk, op: Op, id: string)
    requires RootsApart(cfg) && (op.DoFinish? ==> Tame(cfg, op.t, op.fault))
    ensures !Strays(cfg, d, op, id)
  {
    if op.DoFinish? {
      TameWritesOutside(cfg, d, op.t, op.id, op.fault, PartPath(cfg, id));
      TameWritesOutside(cfg, d, op.t, op.id, op.fault, StatePath(cfg, id));
    }
    hide FinishWrites;
  }

  /** The files in the upload directory other than an upload's own are as they were. */
  ghost predicate RestOfDirSame(cfg: Config, d: Disk, d': Disk, id: string) {
    forall p :: Inside(cfg, p) && p != PartPath(cfg, id) && p != StatePath(cfg, id) ==>
      (p in d' <==> p in d) && (p in d ==> d'[p] == d[p])
  }

  /** The guard is exact: the links of a tree stay out of the upload directory if and
      only if no Finish on it, of any upload on any disk with any outcome, touches
      anything in that directory but its own two files. */
  lemma GuardExactly(cfg: Config, t: FileTree.Tree)
    requires RootsApart(cfg) && Settled(cfg, t)
    ensures LinksStayOut(cfg, t) <==>
      forall d: Disk, id: string, fault: Fault :: RestOfDirSame(cfg, d, Finish(cfg, d, t, id, fault).0, id)
  {
    if LinksStayOut(cfg, t) {
      forall d: Disk, id: string, fault: Fault ensures RestOfDirSame(cfg, d, Finish(cfg, d, t, id, fault).0, id) {
        GuardProtects(cfg, d, t, id, fault);
      }
    } else {
      hide Store.Resolve, Components, CanPlace, FileTree.CopyTo;
      var target: string :|
        && Store.Resolve(t, cfg.roots, target).Ok? && CanPlace(t, Components(Store.Resolve(t, cfg.roots, target).value))
        && var to := FileTree.CopyTo(t, Components(Store.Resolve(t, cfg.roots, target).value));
        to.Some? && Inside(cfg, to.value);
      var d, id := GuardNeeded(cfg, t, target);
      assert !RestOfDirSame(cfg, d, Finish(cfg, d, t, id, RenameFails).0, id);
    }
  }

  lemma GuardProtects(cfg: Config, d: Disk, t: FileTree.Tree, id: string, fault: Fault)
    requires RootsApart(cfg) && LinksStayOut(cfg, t)
    ensures RestOfDirSame(cfg, d, Finish(cfg, d, t, id, fault).0, id)
  {
    var st, part := LoadState(cfg, d, id), Part(cfg, d, id);
    DropStays(cfg, d, id);
    if st.Some? && part.Some? && Store.Resolve(t, cfg.roots, st.value.target).Ok? {
      var path := Components(Store.Resolve(t, cfg.roots, st.value.target).value);
      TargetOutside(cfg, t, st.value.target);
      PlaceProtects(cfg, d, t, id, path, part.value, cfg.hash(part.value), fault);
    }
    hide Store.Resolve, Components, EqualFold, LoadState, Part, Place, Drop, RestOfDirSame;
  }

  lemma DropStays(cfg: Config, d: Disk, id: string)
    ensures RestOfDirSame(cfg, d, Drop(cfg, d, id), id)
  {
    hide PartPath, StatePath;
  }

  lemma PlaceProtects(cfg: Config, d: Disk, t: FileTree.Tree, id: string, target: seq<string>, part: seq<Byte>, sum: string,
                      fault: Fault)
    requires PlacedAt(t, target, fault).Some? ==> !Inside(cfg, PlacedAt(t, target, fault).value)
    ensures RestOfDirSame(cfg, d, Place(cfg, d, t, id, target, part, sum, fault).0, id)
  {
    hide CanPlace, FileTree.CopyTo, PartPath, StatePath, Inside;
  }

  lemma TargetOutside(cfg: Config, t: FileTree.Tree, target: string)
    requires RootsApart(cfg) && Store.Resolve(t, cfg.roots, target).Ok?
    ensures !Inside(cfg, Components(Store.Resolve(t, cfg.roots, target).value))
  {
    Store.AcceptedIsCleanAndBelow(t, cfg.roots, target);
    hide Store.Resolve, Components;
    var p := Components(Store.Resolve(t, cfg.roots, target).value);
    var i :| 0 <= i < |cfg.roots| && Components(cfg.roots[i]) <= p;
    var root := Components(cfg.roots[i]);
    if Inside(cfg, p) {
      PrefixesNest(root, cfg.dir, p);
    }
  }

  lemma PrefixesNest(a: seq<string>, b: seq<string>, p: seq<string>)
    requires a <= p && b <= p
    ensures a <= b || b <= a
  {
    if |a| <= |b| {
      assert a == b[..|a|];
    } else {
      assert b == a[..|b|];
    }
  }

  /** A disk with one finished part on it. */
  function OnePart(cfg: Config, id: string, target: string): Disk {
    map[PartPath(cfg, id) := Blob([]), StatePath(cfg, id) := Meta(UploadState(target, 0, ""))]
  }

  lemma OnePartFinishes(cfg: Config, t: FileTree.Tree, id: string, target: string, to: seq<string>)
    requires cfg.roots != [] && ValidUploadId(id) && Store.Resolve(t, cfg.roots, target).Ok?
    requires CanPlace(t, Components(Store.Resolve(t, cfg.roots, target).value))
    requires FileTree.CopyTo(t, Components(Store.Resolve(t, cfg.roots, target).value)) == Some(to)
    requires to != PartPath(cfg, id) && to != StatePath(cfg, id)
    ensures to in Finish(cfg, OnePart(cfg, id, target), t, id, RenameFails).0 && to !in OnePart(cfg, id, target)
  {
    var d := OnePart(cfg, id, target);
    FilesAreSeparate(cfg, id, id);
    assert Part(cfg, d, id) == Some([]) && LoadState(cfg, d, id) == Some(UploadState(target, 0, ""));
    hide Store.Resolve, Components, EqualFold, CanPlace, FileTree.CopyTo, PartPath, StatePath, LoadState, Part;
  }

  lemma GuardNeeded(cfg: Config, t: FileTree.Tree, target: string) returns (d: Disk, id: string)
    requires cfg.roots != [] && Store.Resolve(t, cfg.roots, target).Ok?
    requires var p := Components(Store.Resolve(t, cfg.roots, target).value);
      CanPlace(t, p) && FileTree.CopyTo(t, p).Some? && Inside(cfg, FileTree.CopyTo(t, p).value)
    ensures !RestOfDirSame(cfg, d, Finish(cfg, d, t, id, RenameFails).0, id)
  {
    var to := FileTree.CopyTo(t, Components(Store.Resolve(t, cfg.roots, target).value)).value;
    FilesAreSeparate(cfg, "a", "b");
    FilesAreSeparate(cfg, "b", "a");
    id := if to == PartPath(cfg, "a") || to == StatePath(cfg, "a") then "b" else "a";
    d := OnePart(cfg, id, target);
    OnePartFinishes(cfg, t, id, target, to);
    hide Finish, OnePart;
  }

  /** The guard is needed. Whatever the configuration: a link in a root that leads to
      the part of another upload, not there yet, is accepted as a target, and if rename
      fails, Finish creates that part. */
  lemma LinkLeadsAstray(cfg: Config, t: FileTree.Tree, d: Disk, id: string, other: string, c: string)
    requires RootsApart(cfg) && Settled(cfg, t)
    requires ValidUploadId(id) && ValidUploadId(other) && IsName(c) && '\0' !in c
    requires var root := Components(cfg.roots[0]);
      && FileTree.IsDirectoryPath(t, root)
      && root + [c] in t && t[root + [c]] == FileTree.Link(Render(PartPath(cfg, other))) && PartPath(cfg, other) !in t
    requires PartPath(cfg, id) in d && d[PartPath(cfg, id)].Blob?
    requires StatePath(cfg, id) in d && d[StatePath(cfg, id)] == Meta(UploadState(c, |d[PartPath(cfg, id)].bytes|, ""))
    requires id != other
    ensures Strays(cfg, d, DoFinish(id, t, RenameFails), other)
    ensures PartPath(cfg, other) in Finish(cfg, d, t, id, RenameFails).0
  {
    var root := Components(cfg.roots[0]);
    var p := root + [c];
    PartIsName(other);
    FileTree.LinkToNothing(t, root, c, cfg.dir, other + ".part");
    LinkIsAccepted(cfg, t, c);
    assert CanPlace(t, p) by {
      assert FileTree.Parent(p) == root && root[..|root|] == root;
      FileTree.RealPathIsFixed(t, root);
    }
    assert Part(cfg, d, id).Some? && LoadState(cfg, d, id).Some? && LoadState(cfg, d, id).value.target == c;
    assert LoadState(cfg, d, id).value.expected == "";
    hide *;
    CopyIsWritten(cfg, d, t, id, p, PartPath(cfg, other));
    assert Strays(cfg, d, DoFinish(id, t, RenameFails), other) by {
      StraysThere(cfg, d, t, id, other);
    }
    StraysCreates(cfg, d, DoFinish(id, t, RenameFails), other);
    AppliedIsFinish(cfg, d, t, id);
  }

  lemma CopyIsWritten(cfg: Config, d: Disk, t: FileTree.Tree, id: string, p: seq<string>, to: seq<string>)
    requires cfg.roots != [] && Part(cfg, d, id).Some? && LoadState(cfg, d, id).Some?
    requires var st := LoadState(cfg, d, id).value;
      && st.expected == "" && Store.Resolve(t, cfg.roots, st.target).Ok?
      && Components(Store.Resolve(t, cfg.roots, st.target).value) == p
    requires CanPlace(t, p) && FileTree.CopyTo(t, p) == Some(to)
    ensures FinishWrites(cfg, d, t, id, RenameFails) == Some(to)
  {
    hide Components, Store.Resolve, CanPlace, FileTree.CopyTo, LoadState, Part;
  }

  lemma StraysThere(cfg: Config, d: Disk, t: FileTree.Tree, id: string, other: string)
    requires cfg.roots != [] && FinishWrites(cfg, d, t, id, RenameFails) == Some(PartPath(cfg, other))
    ensures Strays(cfg, d, DoFinish(id, t, RenameFails), other)
  {
    hide FinishWrites, PartPath;
  }

  lemma AppliedIsFinish(cfg: Config, d: Disk, t: FileTree.Tree, id: string)
    requires cfg.roots != []
    ensures Apply(cfg, d, DoFinish(id, t, RenameFails)) == Finish(cfg, d, t, id, RenameFails).0
  {
    hide Finish;
  }

  lemma PartIsName(id: string)
    requires ValidUploadId(id)
    ensures IsName(id + ".part")
  {
    var n := id + ".part";
    assert |n| > 5;
    forall i | 0 <= i < |n| ensures n[i] != '/' {
      assert i < |id| ==> IsIdChar(id[i]);
    }
  }

  lemma LinkIsAccepted(cfg: Config, t: FileTree.Tree, c: string)
    requires RootsApart(cfg) && IsName(c) && '\0' !in c
    requires FileTree.IsDirectoryPath(t, Components(cfg.roots[0]))
    requires FileTree.EvalComponents(t, Components(cfg.roots[0]) + [c]) == FileTree.Missing
    ensures var r := Store.Resolve(t, cfg.roots, c);
      r.Ok? && Components(r.value) == Components(cfg.roots[0]) + [c]
  {
    var root := Components(cfg.roots[0]);
    var p := root + [c];
    assert IsCleanPath(cfg.roots[0]) && root != [];
    Store.CandidateBelow(cfg.roots, c);
    ComponentsRender(p);
    DescendantAccepted(root, [c]);
    FileTree.RealPathIsFixed(t, root);
    hide Components, Render, FileTree.EvalComponents, Accepts, FileTree.IsDirectoryPath, RootsApart, IsCleanPath;
    Store.ExistingLast(t, root, c);
    hide Store.Existing;
    assert Store.UnderSomeRoot(cfg.roots, Render(p));
  }
}
