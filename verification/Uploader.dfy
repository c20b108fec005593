/** The Uploader object: each method is one critical section over the disk. */
module Uploader {
  import opened Wrappers
  import opened Text
  import opened Paths
  import FileTree
  import Store
  import U = Uploads

  /** The buffer of io.Copy. */
  const BUFFER: nat := 32 * 1024

  class Uploader {
    const cfg: U.Config
    var disk: U.Disk

    constructor (cfg: U.Config, disk: U.Disk)
      requires cfg.roots != []
      ensures this.cfg == cfg && this.disk == disk
    {
      this.cfg := cfg;
      this.disk := disk;
    }

    method Create(t: FileTree.Tree, id: string, target: string, length: int, expected: string, fault: U.Fault)
      returns (failure: Option<U.Failure>)
      requires cfg.roots != []
      modifies this
      ensures (disk, failure) == U.Create(cfg, old(disk), t, id, target, length, expected, fault)
    {
      if length < 0 {
        return Some(U.Refused);
      }
      var resolved := Store.Resolve(t, cfg.roots, target);
      if resolved.Err? || !U.ValidUploadId(id) {
        return Some(U.Refused);
      }
      var part := U.PartPath(cfg, id);
      if fault.OpenFails? || part in disk {
        return Some(U.Refused);
      }
      disk := disk[part := U.Blob([])];
      if fault.StateNotWritten? {
        disk := disk[U.StatePath(cfg, id) := U.Blob([])];
        return Some(U.Refused);
      }
      disk := disk[U.StatePath(cfg, id) := U.Meta(U.UploadState(target, length, ToLower(expected)))];
      return None;
    }

    method Offset(id: string) returns (r: Option<(nat, nat)>)
      ensures r == U.Offset(cfg, disk, id)
    {
      var st := U.LoadState(cfg, disk, id);
      var part := U.Part(cfg, disk, id);
      if st.None? || part.None? {
        return None;
      }
      return Some((|part.value|, st.value.length));
    }

    /** The copy goes through a buffer; the file grows by at most a buffer at a
        time, and whatever was written before a failure stays. */
    method WriteChunk(id: string, offset: nat, body: seq<Byte>, fault: U.Fault)
      returns (r: Result<(nat, bool), U.Failure>)
      modifies this
      ensures (disk, r) == U.WriteChunk(cfg, old(disk), id, offset, body, fault)
    {
      var st := U.LoadState(cfg, disk, id);
      var part := U.Part(cfg, disk, id);
      if st.None? || part.None? || fault.OpenFails? {
        return Err(U.Refused);
      }
      if |part.value| != offset {
        return Err(U.Conflict(|part.value|));
      }
      var path := U.PartPath(cfg, id);
      var reached := U.Reached(|body|, fault);
      var written := 0;
      assert part.value + body[..0] == part.value;
      while written < reached
        invariant written <= reached <= |body|
        invariant disk == old(disk)[path := U.Blob(part.value + body[..written])]
      {
        written := written + U.Min(BUFFER, reached - written);
        disk := disk[path := U.Blob(part.value + body[..written])];
      }
      var newOffset := offset + written;
      if fault.CopyStops? || newOffset > st.value.length {
        return Err(U.Refused);
      }
      return Ok((newOffset, newOffset == st.value.length));
    }

    method Finish(t: FileTree.Tree, id: string, fault: U.Fault) returns (r: Result<string, U.Failure>)
      requires cfg.roots != []
      modifies this
      ensures (disk, r) == U.Finish(cfg, old(disk), t, id, fault)
    {
      var st := U.LoadState(cfg, disk, id);
      var part := U.Part(cfg, disk, id);
      if st.None? || part.None? || fault.OpenFails? {
        return Err(U.Refused);
      }
      var sum := cfg.hash(part.value);
      if st.value.expected != "" && !EqualFold(sum, st.value.expected) {
        Discard(id);
        return Err(U.Mismatch(sum));
      }
      var resolved := Store.Resolve(t, cfg.roots, st.value.target);
      if resolved.Err? {
        Discard(id);
        return Err(U.Refused);
      }
      r := Place(t, id, Components(resolved.value), part.value, sum, fault);
    }

    /** The end of Finish: directory, rename, and the copy when renaming fails. */
    method Place(t: FileTree.Tree, id: string, target: seq<string>, part: seq<Byte>, sum: string, fault: U.Fault)
      returns (r: Result<string, U.Failure>)
      modifies this
      ensures (disk, r) == U.Place(cfg, old(disk), t, id, target, part, sum, fault)
    {
      if fault.MkdirFails? || !U.CanPlace(t, target) {
        return Err(U.Refused);
      }
      if fault.RenameFails? || fault.RenameAndCopyFail? {
        var to := FileTree.CopyTo(t, target);
        if to.None? || !U.Copying(fault) {
          return Err(U.Refused);
        }
        disk := U.Copied(cfg, disk, id, part, to.value, fault);
        if fault.RenameAndCopyFail? {
          return Err(U.Refused);
        }
      } else {
        disk := disk[target := U.Blob(part)];
      }
      disk := disk - {U.PartPath(cfg, id)};
      if !fault.StateStays? {
        disk := disk - {U.StatePath(cfg, id)};
      }
      return Ok(sum);
    }

    method Discard(id: string)
      modifies this
      ensures disk == U.Discard(cfg, old(disk), id)
    {
      disk := disk - {U.PartPath(cfg, id)};
      disk := disk - {U.StatePath(cfg, id)};
    }
  }
}
