/** The creation handler of the upload endpoint, and what the app sends to it. */
module UploadApi {
  import opened Wrappers
  import opened Text
  import opened Paths
  import Decimal
  import FileTree
  import Store
  import M = UploadMetadata
  import U = Uploads

  /** A Go string made of the given bytes, one character per byte. */
  function AsText(b: seq<Byte>): string {
    seq(|b|, i requires 0 <= i < |b| => b[i] as char)
  }

  predicate IsAscii(s: string) {
    forall i :: 0 <= i < |s| ==> s[i] as int < 128
  }

  /** utf8.encode on ASCII text. */
  function AsBytes(s: string): seq<Byte>
    requires IsAscii(s)
  {
    seq(|s|, i requires 0 <= i < |s| => s[i] as int)
  }

  // ---- path.Join -------------------------------------------------------------------

  /** path.Clean on the pieces of a relative path: ".." stays when there is nothing
      left to take along. */
  function CleanRelative(pieces: seq<string>, acc: seq<string>): seq<string>
    decreases |pieces|
  {
    if pieces == [] then acc
    else if pieces[0] == "" || pieces[0] == "." then CleanRelative(pieces[1..], acc)
    else if pieces[0] == ".." && acc != [] && acc[|acc| - 1] != ".." then
      CleanRelative(pieces[1..], acc[..|acc| - 1])
    else CleanRelative(pieces[1..], acc + [pieces[0]])
  }

  /** path.Join(dir, name) for two non-empty arguments. */
  function JoinPath(dir: string, name: string): string {
    var text := dir + "/" + name;
    if IsAbs(text) then Render(Components(text))
    else
      var cs := CleanRelative(Split(text, '/'), []);
      if cs == [] then "." else Join(cs, '/')
  }

  /** The target an upload declares by its directory and file name. */
  function TargetOf(dir: seq<Byte>, filename: seq<Byte>): string {
    if dir == [] then AsText(filename) else JoinPath(AsText(dir), AsText(filename))
  }

  // ---- POST /files/upload -------------------------------------------------------------

  function Get(m: M.Metadata, key: string): seq<Byte> {
    if key in m then m[key] else []
  }

  function CreateParsed(cfg: U.Config, d: U.Disk, t: FileTree.Tree, id: string, length: nat,
                        dir: seq<Byte>, filename: seq<Byte>, sha256: string, fault: U.Fault): (U.Disk, bool)
    requires cfg.roots != []
  {
    if filename == [] then (d, false)
    else
      var (d', failure) := U.Create(cfg, d, t, id, TargetOf(dir, filename), length, sha256, fault);
      (d', failure.None?)
  }

  /** handleUploadCreate for a freshly drawn id; true is 201. */
  function HandleCreate(cfg: U.Config, d: U.Disk, t: FileTree.Tree, id: string,
                        uploadLength: string, uploadMetadata: string, fault: U.Fault): (U.Disk, bool)
    requires cfg.roots != []
  {
    var length := Decimal.ParseOffset(uploadLength);
    var meta := M.Parsed(uploadMetadata);
    if length.None? then (d, false)
    else CreateParsed(cfg, d, t, id, length.value, Get(meta, "dir"), Get(meta, "filename"),
                      AsText(Get(meta, "sha256")), fault)
  }

  /** The metadata entries _create sends. */
  function ClientEntries(dir: seq<Byte>, filename: seq<Byte>, sha256: string): seq<M.Entry>
    requires IsAscii(sha256)
  {
    [M.Entry("filename", filename)]
    + (if dir == [] then [] else [M.Entry("dir", dir)])
    + [M.Entry("sha256", AsBytes(sha256))]
  }

  lemma ClientKeysAreCarried(value: seq<Byte>)
    ensures M.Carried(M.Entry("filename", value))
    ensures M.Carried(M.Entry("dir", value))
    ensures M.Carried(M.Entry("sha256", value))
  {
  }

  lemma ClientMetadataArrives(dir: seq<Byte>, filename: seq<Byte>, sha256: string)
    requires IsAscii(sha256)
    ensures var meta := M.Parsed(M.Encode(ClientEntries(dir, filename, sha256)));
      && Get(meta, "filename") == filename && Get(meta, "dir") == dir
      && AsText(Get(meta, "sha256")) == sha256
  {
    hide M.Parsed, M.Encode, M.Carried;
    var es := ClientEntries(dir, filename, sha256);
    var file, folder, sum := M.Entry("filename", filename), M.Entry("dir", dir), M.Entry("sha256", AsBytes(sha256));
    assert AsText(AsBytes(sha256)) == sha256;
    assert file in es && sum in es && (dir != [] ==> folder in es);
    assert dir == [] ==> es == [file, sum];
    assert |"filename"| == 8 && |"dir"| == 3 && |"sha256"| == 6;
    forall e | e in es ensures M.Carried(e) {
      ClientKeysAreCarried(e.value);
    }
    M.CarriedRoundTrip(es);
    M.AddEntriesLookup(map[], es);
  }

  lemma ParsedCreateArrives(cfg: U.Config, d: U.Disk, t: FileTree.Tree, id: string, length: nat,
                            dir: seq<Byte>, filename: seq<Byte>, sha256: string, fault: U.Fault)
    requires cfg.roots != []
    ensures var (d', created) := CreateParsed(cfg, d, t, id, length, dir, filename, sha256, fault);
      && (created ==>
            && U.Part(cfg, d', id) == Some([])
            && U.LoadState(cfg, d', id)
               == Some(U.UploadState(TargetOf(dir, filename), length, ToLower(sha256))))
      && (created <==>
            && filename != [] && U.ValidUploadId(id) && U.PartPath(cfg, id) !in d
            && Store.Resolve(t, cfg.roots, TargetOf(dir, filename)).Ok?
            && !fault.OpenFails? && !fault.StateNotWritten?)
  {
    U.FilesAreSeparate(cfg, id, id);
    hide TargetOf, Store.Resolve, ToLower, U.ValidUploadId, U.PartPath, U.StatePath;
  }

  /** When the daemon answers 201 to the app's own request, it holds an empty part
      and exactly what the app declared: the length, the target and the hash. It
      answers 201 exactly when there is a file name, the target resolves below a
      root, the drawn id is free and the disk works. */
  lemma CreateArrives(cfg: U.Config, d: U.Disk, t: FileTree.Tree, id: string, length: nat,
                      dir: seq<Byte>, filename: seq<Byte>, sha256: string, fault: U.Fault)
    requires cfg.roots != [] && IsAscii(sha256) && length <= Decimal.MAX_INT64
    ensures var (d', created) :=
        HandleCreate(cfg, d, t, id, Decimal.Print(length),
                     M.Encode(ClientEntries(dir, filename, sha256)), fault);
      && (created ==>
            && U.Part(cfg, d', id) == Some([])
            && U.LoadState(cfg, d', id)
               == Some(U.UploadState(TargetOf(dir, filename), length, ToLower(sha256))))
      && (created <==>
            && filename != [] && U.ValidUploadId(id) && U.PartPath(cfg, id) !in d
            && Store.Resolve(t, cfg.roots, TargetOf(dir, filename)).Ok?
            && !fault.OpenFails? && !fault.StateNotWritten?)
  {
    hide M.Parsed, M.Encode, ClientEntries, Decimal.ParseOffset, Decimal.Print, CreateParsed, AsText, Get,
      TargetOf, Store.Resolve, ToLower, U.Part, U.LoadState, U.ValidUploadId, U.PartPath;
    Decimal.ParsePrintedOffset(length);
    ClientMetadataArrives(dir, filename, sha256);
    ParsedCreateArrives(cfg, d, t, id, length, dir, filename, sha256, fault);
  }

  // ---- Where the declared target lies --------------------------------------------------------

  /** A relative path as far as it is cleaned: no empty piece, no ".", and what is in
      front of a name stays. */
  ghost predicate Reduced(acc: seq<string>) {
    forall i :: 0 <= i < |acc| ==> acc[i] != "" && acc[i] != "." && '/' !in acc[i]
  }

  /** Cleaning the pieces of a relative path does not change what they mean below any
      directory. */
  lemma {:induction false} CleanRelativeMeans(pieces: seq<string>, acc: seq<string>, base: seq<string>)
    requires Reduced(acc) && forall p :: p in pieces ==> '/' !in p
    ensures Clean(CleanRelative(pieces, acc), base) == Clean(acc + pieces, base)
    ensures Reduced(CleanRelative(pieces, acc))
    decreases |pieces|
  {
    if pieces == [] {
      assert acc + pieces == acc;
    } else {
      var p, rest := pieces[0], pieces[1..];
      assert acc + pieces == acc + ([p] + rest);
      CleanInTwo(acc, [p] + rest, base);
      assert Clean([p] + rest, Clean(acc, base)) == Clean(rest, Clean([p], Clean(acc, base))) by {
        CleanInTwo([p], rest, Clean(acc, base));
      }
      if p == "" || p == "." {
        CleanInTwo(acc, rest, base);
        CleanRelativeMeans(rest, acc, base);
      } else if p == ".." && acc != [] && acc[|acc| - 1] != ".." {
        var front, n := acc[..|acc| - 1], acc[|acc| - 1];
        assert acc == front + [n];
        CleanInTwo(front, [n], base);
        assert Clean([n], Clean(front, base)) == Clean(front, base) + [n];
        assert Clean([p], Clean(front, base) + [n]) == Clean(front, base);
        CleanInTwo(front, rest, base);
        CleanRelativeMeans(rest, front, base);
      } else {
        assert acc + [p] + rest == acc + ([p] + rest);
        CleanRelativeMeans(rest, acc + [p], base);
      }
    }
  }

  lemma {:induction false} CleanRelativeNames(cs: seq<string>, acc: seq<string>)
    requires IsNames(cs)
    ensures CleanRelative(cs, acc) == acc + cs
    decreases |cs|
  {
    if cs != [] {
      CleanRelativeNames(cs[1..], acc + [cs[0]]);
      assert acc + [cs[0]] + cs[1..] == acc + cs;
    }
  }

  lemma ReducedText(cs: seq<string>)
    requires Reduced(cs) && cs != []
    ensures !IsAbs(Join(cs, '/')) && Split(Join(cs, '/'), '/') == cs
  {
    assert cs[0] != "" && cs[0][0] in cs[0];
    SplitJoin(cs, '/');
  }

  /** The declared target lies in the declared directory: below the first root, or where
      an absolute directory is, it is what directory and name say in one. */
  lemma TargetInDirectory(roots: seq<string>, dir: seq<Byte>, filename: seq<Byte>)
    requires roots != [] && dir != []
    ensures var folder, name := AsText(dir), AsText(filename);
      Store.Candidate(roots, TargetOf(dir, filename))
      == Components(if IsAbs(folder) then folder + "/" + name else roots[0] + "/" + (folder + "/" + name))
  {
    var text := AsText(dir) + "/" + AsText(filename);
    assert IsAbs(text) == IsAbs(AsText(dir));
    if IsAbs(text) {
      ComponentsAreNames(text);
      ComponentsRender(Components(text));
      assert IsAbs(Render(Components(text)));
    } else {
      var pieces, base := Split(text, '/'), Components(roots[0]);
      var cs := CleanRelative(pieces, []);
      SplitPieces(text, '/');
      CleanRelativeMeans(pieces, [], base);
      assert [] + pieces == pieces;
      var target := if cs == [] then "." else Join(cs, '/');
      assert TargetOf(dir, filename) == target;
      assert !IsAbs(target) && Clean(Split(target, '/'), base) == Clean(cs, base) by {
        if cs == [] {
          SplitWhole(".", '/');
          assert Clean(["."], base) == Clean([], base) == base;
        } else {
          ReducedText(cs);
        }
      }
      ComponentsInTwo(roots[0], target);
      ComponentsInTwo(roots[0], text);
    }
  }

  /** For names, the target is their join. */
  lemma TargetIsJoin(cs: seq<string>, dir: seq<Byte>, filename: seq<Byte>)
    requires IsNames(cs) && IsName(AsText(filename))
    ensures AsText(dir) == Join(cs, '/') ==> TargetOf(dir, filename) == Join(cs + [AsText(filename)], '/')
    ensures AsText(dir) == Render(cs) ==> TargetOf(dir, filename) == Render(cs + [AsText(filename)])
  {
    var folder, name := AsText(dir), AsText(filename);
    var all := cs + [name];
    if folder == Join(cs, '/') {
      if cs == [] {
        assert dir == [] && all == [name];
      } else {
        ReducedText(cs);
        ReducedText(all);
        assert folder != "" by {
          assert Split("", '/') == [""];
        }
        JoinConcat(cs, [name], '/');
        assert folder + "/" + name == Join(all, '/') && !IsAbs(Join(all, '/'));
        CleanRelativeNames(all, []);
        assert [] + all == all;
      }
    }
    if folder == Render(cs) {
      assert IsAbs(folder) && IsAbs(folder + "/" + name);
      ComponentsRender(cs);
      NamesBehind(folder, [name]);
      assert Join([name], '/') == name;
    }
  }

  // ---- Any request ------------------------------------------------------------------------------

  /** A request depends on what its length is read as, and no file name refuses it. */
  lemma LengthDecides(cfg: U.Config, d: U.Disk, t: FileTree.Tree, id: string, a: string, b: string, uploadMetadata: string,
                      fault: U.Fault)
    requires cfg.roots != []
    ensures Decimal.ParseOffset(a) == Decimal.ParseOffset(b) ==>
      HandleCreate(cfg, d, t, id, a, uploadMetadata, fault) == HandleCreate(cfg, d, t, id, b, uploadMetadata, fault)
    ensures Decimal.ParseOffset(a).None? || Get(M.Parsed(uploadMetadata), "filename") == [] ==>
      HandleCreate(cfg, d, t, id, a, uploadMetadata, fault) == (d, false)
  {
    hide M.Parsed, Decimal.ParseOffset, Get, AsText, U.Create, TargetOf;
  }

  /** A length that is not one, or no file name, is refused and leaves nothing behind; any
      other request is answered like the app's own. */
  lemma RequestExactly(cfg: U.Config, d: U.Disk, t: FileTree.Tree, id: string, uploadLength: string, uploadMetadata: string,
                       fault: U.Fault, length: nat)
    requires cfg.roots != []
    ensures (forall n: nat :: !Decimal.Denotes(uploadLength, n)) || Get(M.Parsed(uploadMetadata), "filename") == [] ==>
      HandleCreate(cfg, d, t, id, uploadLength, uploadMetadata, fault) == (d, false)
    ensures Decimal.Denotes(uploadLength, length) ==>
      HandleCreate(cfg, d, t, id, uploadLength, uploadMetadata, fault)
      == HandleCreate(cfg, d, t, id, Decimal.Print(length), uploadMetadata, fault)
  {
    assert Decimal.Denotes(uploadLength, length) ==> length <= Decimal.MAX_INT64;
    hide *;
    LengthDecides(cfg, d, t, id, uploadLength, Decimal.Print(length), uploadMetadata, fault);
    Decimal.ParseOffsetExactly(uploadLength, length);
    var parsed := Decimal.ParseOffset(uploadLength);
    if parsed.Some? {
      Decimal.ParseOffsetExactly(uploadLength, parsed.value);
    }
    if Decimal.Denotes(uploadLength, length) {
      Decimal.ParsePrintedOffset(length);
    }
  }
}
