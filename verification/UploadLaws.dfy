/** What a write, a finish and a HEAD do, in terms of the bytes on the disk. */
module UploadLaws {
  import opened Wrappers
  import opened Text
  import opened Paths
  import FileTree
  import Store
  import opened Uploads

  // ---- Writing --------------------------------------------------------------------------

  /** Nothing but an upload's part is different. */
  ghost predicate OnlyPartDiffers(cfg: Config, d: Disk, d': Disk, id: string) {
    forall p :: p != PartPath(cfg, id) ==> (p in d' <==> p in d) && (p in d ==> d'[p] == d[p])
  }

  /** A chunk at any other offset than the stored size is a conflict and changes nothing. */
  lemma WrongOffsetIsRefused(cfg: Config, d: Disk, id: string, offset: nat, body: seq<Byte>, fault: Fault)
    requires LoadState(cfg, d, id).Some? && Part(cfg, d, id).Some? && !fault.OpenFails?
    requires offset != |Part(cfg, d, id).value|
    ensures WriteChunk(cfg, d, id, offset, body, fault) == (d, Err(Conflict(|Part(cfg, d, id).value|)))
  {
  }

  /** A chunk at the stored size is appended, up to where reading or writing failed; it
      succeeds exactly if that is all of it and no more than was declared, and completes
      the upload exactly if it is just that much. */
  lemma RightOffsetAppends(cfg: Config, d: Disk, id: string, body: seq<Byte>, fault: Fault)
    requires LoadState(cfg, d, id).Some? && Part(cfg, d, id).Some? && !fault.OpenFails?
    ensures var part, length := Part(cfg, d, id).value, LoadState(cfg, d, id).value.length;
      var (d', r) := WriteChunk(cfg, d, id, |part|, body, fault);
      && (exists k :: 0 <= k <= |body| && Part(cfg, d', id) == Some(part + body[..k]) && (!fault.CopyStops? ==> k == |body|))
      && OnlyPartDiffers(cfg, d, d', id)
      && (r.Ok? <==> !fault.CopyStops? && |part| + |body| <= length)
      && (r.Ok? ==> r.value == (|part| + |body|, |part| + |body| == length))
  {
    FilesAreSeparate(cfg, id, id);
    var part := Part(cfg, d, id).value;
    var d' := WriteChunk(cfg, d, id, |part|, body, fault).0;
    var k := Reached(|body|, fault);
    hide PartPath, StatePath, ValidUploadId;
    assert Part(cfg, d', id) == Some(part + body[..k]);
  }

  /** A chunk of a byte string, at its own offset. */
  predicate IsSlice(op: Op, id: string, bytes: seq<Byte>) {
    op.DoWrite? && op.id == id && op.offset <= |bytes| && op.body <= bytes[op.offset..]
  }

  lemma SliceKeepsPrefix(cfg: Config, d: Disk, op: Op, id: string, bytes: seq<Byte>)
    requires cfg.roots != [] && IsSlice(op, id, bytes)
    requires Part(cfg, d, id).Some? ==> Part(cfg, d, id).value <= bytes
    ensures var before, after := Part(cfg, d, id), Part(cfg, Apply(cfg, d, op), id);
      && (after.Some? <==> before.Some?)
      && (before.Some? ==> before.value <= after.value <= bytes)
  {
    var st, part := LoadState(cfg, d, id), Part(cfg, d, id);
    if st.Some? && part.Some? && !op.fault.OpenFails? {
      if op.offset == |part.value| {
        RightOffsetAppends(cfg, d, id, op.body, op.fault);
        var k :| 0 <= k <= |op.body| && Part(cfg, Apply(cfg, d, op), id) == Some(part.value + op.body[..k]);
        assert op.body[..k] == bytes[op.offset..][..k] == bytes[op.offset..op.offset + k];
        assert part.value == bytes[..op.offset];
        assert part.value + op.body[..k] == bytes[..op.offset + k];
      } else {
        WrongOffsetIsRefused(cfg, d, id, op.offset, op.body, op.fault);
      }
    }
    hide Part, LoadState;
  }

  /** Over every sequence of writes of slices of one byte string at their own offsets,
      whatever their order, number and outcome, the part stays a prefix of it and never
      shrinks. */
  lemma {:induction false} WritesKeepPrefix(cfg: Config, d: Disk, ops: seq<Op>, id: string, bytes: seq<Byte>)
    requires cfg.roots != [] && forall i :: 0 <= i < |ops| ==> IsSlice(ops[i], id, bytes)
    requires Part(cfg, d, id).Some? ==> Part(cfg, d, id).value <= bytes
    ensures var before, after := Part(cfg, d, id), Part(cfg, Run(cfg, d, ops), id);
      && (after.Some? <==> before.Some?)
      && (before.Some? ==> before.value <= after.value <= bytes)
    decreases |ops|
  {
    hide Part, Apply, IsSlice;
    if ops != [] {
      SliceKeepsPrefix(cfg, d, ops[0], id, bytes);
      WritesKeepPrefix(cfg, Apply(cfg, d, ops[0]), ops[1..], id, bytes);
    }
  }

  // ---- Asking -------------------------------------------------------------------------------

  /** An offset is answered exactly for a valid id with its two files, and is the size of
      the one and the length noted in the other. */
  lemma OffsetExactly(cfg: Config, d: Disk, id: string, size: nat, length: nat)
    ensures Offset(cfg, d, id) == Some((size, length)) <==>
      && ValidUploadId(id)
      && PartPath(cfg, id) in d && d[PartPath(cfg, id)].Blob? && |d[PartPath(cfg, id)].bytes| == size
      && StatePath(cfg, id) in d && d[StatePath(cfg, id)].Meta? && d[StatePath(cfg, id)].state.length == length
  {
    hide PartPath, StatePath, ValidUploadId;
  }

  // ---- Integrity --------------------------------------------------------------------------------

  /** Every state on the disk notes its hash in lower case. */
  ghost predicate StatesLower(d: Disk) {
    forall p :: p in d && d[p].Meta? ==> IsLowerText(d[p].state.expected)
  }

  lemma OpKeepsLower(cfg: Config, d: Disk, op: Op)
    requires cfg.roots != [] && StatesLower(d)
    ensures StatesLower(Apply(cfg, d, op))
  {
    if op.DoCreate? {
      ToLowerIs(op.expected);
    }
    hide Store.Resolve, Components, EqualFold, ToLower, IsLowerText, CanPlace, FileTree.CopyTo, PartPath, StatePath,
      ValidUploadId, LoadState, Part;
  }

  /** From an empty disk every run leaves it so. */
  lemma {:induction false} RunKeepsLower(cfg: Config, d: Disk, ops: seq<Op>)
    requires cfg.roots != [] && StatesLower(d)
    ensures StatesLower(Run(cfg, d, ops))
    decreases |ops|
  {
    hide Apply, StatesLower;
    if ops != [] {
      OpKeepsLower(cfg, d, ops[0]);
      RunKeepsLower(cfg, Apply(cfg, d, ops[0]), ops[1..]);
    }
  }

  /** Integrity: with a hash function that gives lower-case text, in every run a Finish
      that succeeds for an upload with a declared hash has a part with exactly that hash,
      character by character. */
  lemma PublishedHasDeclaredHash(cfg: Config, ops: seq<Op>, t: FileTree.Tree, id: string, fault: Fault)
    requires RootsApart(cfg) && forall b :: IsLowerText(cfg.hash(b))
    requires var d := Run(cfg, map[], ops);
      Finish(cfg, d, t, id, fault).1.Ok? && LoadState(cfg, d, id).Some? && LoadState(cfg, d, id).value.expected != ""
    ensures var d := Run(cfg, map[], ops);
      Part(cfg, d, id).Some? && cfg.hash(Part(cfg, d, id).value) == LoadState(cfg, d, id).value.expected
  {
    var d := Run(cfg, map[], ops);
    RunKeepsLower(cfg, map[], ops);
    FinishExactly(cfg, d, t, id, fault);
    hide Finish, Run, FinishWrites, Store.Resolve, Components;
    assert IsLowerText(LoadState(cfg, d, id).value.expected);
    SameLowerText(cfg.hash(Part(cfg, d, id).value), LoadState(cfg, d, id).value.expected);
  }

  /** When nothing fails, a Finish succeeds exactly if there is a part with the declared
      hash, if one was declared, and the target resolves to a place that is no directory
      and has nothing but directories on the way. */
  lemma FinishSucceedsExactly(cfg: Config, d: Disk, t: FileTree.Tree, id: string)
    requires RootsApart(cfg) && Store.Grounded(t)
    ensures Finish(cfg, d, t, id, NoFault).1.Ok? <==>
      var st, part := LoadState(cfg, d, id), Part(cfg, d, id);
      && st.Some? && part.Some? && (st.value.expected != "" ==> SameText(cfg.hash(part.value), st.value.expected))
      && Store.Resolve(t, cfg.roots, st.value.target).Ok?
      && var p := Components(Store.Resolve(t, cfg.roots, st.value.target).value);
      && p != [] && (p in t ==> !t[p].Directory?)
      && forall i :: 0 < i < |p| && p[..i] in t ==> t[p[..i]].Directory?
  {
    var st, part := LoadState(cfg, d, id), Part(cfg, d, id);
    if st.Some? && part.Some? {
      EqualFoldExactly(cfg.hash(part.value), st.value.expected);
      if Store.Resolve(t, cfg.roots, st.value.target).Ok? {
        Store.CanMakeExactly(t, cfg.roots, st.value.target);
      }
    }
    hide Store.Resolve, Components, EqualFold, SameText, FileTree.CanMake, LoadState, Part, Drop;
  }

  // ---- Names of files -----------------------------------------------------------------------------

  /** What newUploadID draws: twelve bytes in hexadecimal. */
  predicate IsDrawnId(id: string) {
    |id| == 24 && forall i :: 0 <= i < |id| ==> '0' <= id[i] <= '9' || 'a' <= id[i] <= 'f'
  }

  /** The ids the daemon draws are valid, and whatever a client sends for one, if it is
      valid then its two files are entries of the directory: neither empty nor "." nor "..",
      and with no separator, dot of its own or NUL in it. */
  lemma IdsAreNames(id: string)
    ensures IsDrawnId(id) ==> ValidUploadId(id)
    ensures ValidUploadId(id) ==>
      && IsName(id) && '.' !in id && '\0' !in id && IsName(id + ".part") && IsName(id + ".json")
  {
    hide IsIdChar;
    if IsDrawnId(id) {
      forall i | 0 <= i < |id| ensures IsIdChar(id[i]) {
        DrawnAreValid(id[i]);
      }
    }
    if ValidUploadId(id) {
      DrawnAreValid('.');
      assert id[0] != '.' && id[0] in id;
      assert |id + ".part"| > 2 && |id + ".json"| > 2;
    }
  }

  lemma DrawnAreValid(c: char)
    ensures '0' <= c <= '9' || 'a' <= c <= 'f' ==> IsIdChar(c)
    ensures c in {'/', '\0', '.'} ==> !IsIdChar(c)
    ensures !IsIdChar('/') && !IsIdChar('\0')
  {
  }

  // ---- Creating ------------------------------------------------------------------------------------

  /** What Create leaves: success an empty part and what was declared; a refusal nothing,
      unless it is the state that could not be written, and then a part without one. No
      other file changes. */
  lemma CreateExactly(cfg: Config, d: Disk, t: FileTree.Tree, id: string, target: string, length: int,
                      expected: string, fault: Fault)
    requires cfg.roots != []
    ensures var (d', r) := Create(cfg, d, t, id, target, length, expected, fault);
      var fits := length >= 0 && Store.Resolve(t, cfg.roots, target).Ok? && ValidUploadId(id)
                  && PartPath(cfg, id) !in d && !fault.OpenFails?;
      && (r.None? <==> fits && !fault.StateNotWritten?)
      && (!fits ==> d' == d)
      && (fits ==> Part(cfg, d', id) == Some([]))
      && (fits && r.Some? ==> LoadState(cfg, d', id).None?)
      && (r.None? ==>
            LoadState(cfg, d', id).Some?
            && var st := LoadState(cfg, d', id).value;
               st.target == target && st.length == length && SameText(expected, st.expected) && IsLowerText(st.expected))
      && forall p :: p != PartPath(cfg, id) && p != StatePath(cfg, id) ==> (p in d' <==> p in d) && (p in d ==> d'[p] == d[p])
  {
    FilesAreSeparate(cfg, id, id);
    ToLowerIs(expected);
    hide Store.Resolve, ValidUploadId, PartPath, StatePath, ToLower, SameText, IsLowerText;
  }

  // ---- Finishing ------------------------------------------------------------------------------------

  /** Two disks agree but for the files of an upload and one more. */
  ghost predicate AgreeBut(cfg: Config, d: Disk, d': Disk, id: string, other: Option<seq<string>>) {
    forall p :: p != PartPath(cfg, id) && p != StatePath(cfg, id) && Some(p) != other ==>
      (p in d' <==> p in d) && (p in d ==> d'[p] == d[p])
  }

  lemma PlaceLeaves(cfg: Config, d: Disk, t: FileTree.Tree, id: string, target: seq<string>, part: seq<Byte>, sum: string,
                    fault: Fault)
    requires Part(cfg, d, id) == Some(part)
    ensures var (d', r) := Place(cfg, d, t, id, target, part, sum, fault);
      var to := PlacedAt(t, target, fault);
      && AgreeBut(cfg, d, d', id, to)
      && (r.Ok? <==> to.Some? && !fault.RenameAndCopyFail?)
      && (r.Ok? ==> PartPath(cfg, id) !in d' && (StatePath(cfg, id) in d' ==> fault.StateStays?))
      && (r.Err? ==>
            && (to != Some(PartPath(cfg, id)) ==> Part(cfg, d', id) == Some(part))
            && (to != Some(StatePath(cfg, id)) ==> LoadState(cfg, d', id) == LoadState(cfg, d, id)))
  {
    FilesAreSeparate(cfg, id, id);
    DropIs(cfg, d, id);
    hide CanPlace, FileTree.CopyTo, PartPath, StatePath, ValidUploadId;
  }

  /** What Finish leaves: only the file it writes and the upload's own two may change. A
      success removes both, the state unless that fails; a wrong hash or a target that does
      not resolve any more throws both away; any other failure keeps both, so that the
      client may try again, unless a link led the copy onto one of them. */
  lemma FinishLeaves(cfg: Config, d: Disk, t: FileTree.Tree, id: string, fault: Fault)
    requires cfg.roots != []
    ensures var (d', r) := Finish(cfg, d, t, id, fault);
      var st, part, to := LoadState(cfg, d, id), Part(cfg, d, id), FinishWrites(cfg, d, t, id, fault);
      && AgreeBut(cfg, d, d', id, to)
      && (r.Ok? ==> PartPath(cfg, id) !in d' && (StatePath(cfg, id) in d' ==> fault.StateStays?))
      && (st.None? || part.None? || fault.OpenFails? ==> d' == d && r == Err(Refused))
      && (st.Some? && part.Some? && !fault.OpenFails? && r.Err? ==>
            if (st.value.expected != "" && !SameText(cfg.hash(part.value), st.value.expected))
               || Store.Resolve(t, cfg.roots, st.value.target).Err?
            then PartPath(cfg, id) !in d' && StatePath(cfg, id) !in d'
            else
              && (to != Some(PartPath(cfg, id)) ==> Part(cfg, d', id) == part)
              && (to != Some(StatePath(cfg, id)) ==> LoadState(cfg, d', id) == st))
  {
    DropIs(cfg, d, id);
    DropAgrees(cfg, d, id);
    hide Store.Resolve, Components, EqualFold, SameText, Place, PlacedAt, Drop, PartPath, StatePath, LoadState, Part, AgreeBut;
    var st, part := LoadState(cfg, d, id), Part(cfg, d, id);
    if st.Some? && part.Some? && !fault.OpenFails? {
      EqualFoldExactly(cfg.hash(part.value), st.value.expected);
      var resolved := Store.Resolve(t, cfg.roots, st.value.target);
      if resolved.Ok? {
        PlaceLeaves(cfg, d, t, id, Components(resolved.value), part.value, cfg.hash(part.value), fault);
      }
    }
  }

  lemma DropAgrees(cfg: Config, d: Disk, id: string)
    ensures AgreeBut(cfg, d, d, id, None) && AgreeBut(cfg, d, Drop(cfg, d, id), id, None)
  {
    DropIs(cfg, d, id);
  }
}
