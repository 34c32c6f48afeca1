/** The file processor: upload validation and naming, and the effects of
    compressing, extracting, renaming and cleaning up on a filesystem held as
    a map from path strings to nodes. Archive formats are not decoded:
    a file's content records which container produced it and what it holds. */
module Files {
  import opened Wrappers
  import opened Paths
  import Text
  import Config
  import Clock

  /** What a file holds. `Archive(alg, entry, inner)` is a container written
      by `alg` holding one member named `entry`; `EmptyArchive(alg)` is a
      well-formed container with no member; `Folder` is an archived
      directory, whose members are not recorded; `Garbled` is any byte
      string no container format of the model accepts. */
  datatype Content =
    | Plain(data: seq<bv8>)
    | Archive(alg: string, entry: string, inner: Content)
    | EmptyArchive(alg: string)
    | Folder
    | Garbled

  datatype Node = File(content: Content) | Dir

  type Fs = map<string, Node>

  predicate IsFile(fs: Fs, p: string)
  {
    p in fs && fs[p].File?
  }

  predicate IsDir(fs: Fs, p: string)
  {
    p in fs && fs[p].Dir?
  }

  /** `p` lies strictly inside directory `d`. */
  predicate Under(d: string, p: string)
  {
    d + "/" <= p
  }

  /** `shutil.rmtree(d)`: `d` and everything under it disappear. */
  function RemoveTree(fs: Fs, d: string): (r: Fs)
    ensures forall p :: p in r <==> p in fs && p != d && !Under(d, p)
    ensures forall p :: p in r ==> r[p] == fs[p]
  {
    map p | p in fs && p != d && !Under(d, p) :: fs[p]
  }

  /** `os.rename(a, b)` onto a free name. A directory is moved as one node:
      paths below it keep their names. */
  function Move(fs: Fs, a: string, b: string): (r: Fs)
    requires a in fs
    ensures b in r && r[b] == fs[a]
    ensures a != b ==> a !in r
    ensures forall p :: p != a && p != b ==> (p in r <==> p in fs) && (p in r ==> r[p] == fs[p])
  {
    (fs - {a})[b := fs[a]]
  }

  /** Failures of the processor's operations. The text of an operating-system
      exception is not modelled: such failures carry the path involved. */
  datatype FileError =
    | UnsupportedCompression(alg: string)
    | CompressRaised(path: string)
    | UnsupportedExtraction(alg: string)
    | ExtractRaised(path: string)
    | RenameRaised(path: string)

  /** The message each failure is reported with, up to the exception text. */
  function Message(e: FileError): string
  {
    match e
    case UnsupportedCompression(alg) => "不支持的压缩算法: " + alg
    case CompressRaised(_) => "压缩失败: "
    case UnsupportedExtraction(alg) => "不支持的解压算法: " + alg
    case ExtractRaised(_) => "解压失败: "
    case RenameRaised(_) => "修改后缀名失败: "
  }

  // ---------------------------------------------------------------------
  // Upload validation and naming

  /** The extension `validate_file` checks: the lower-cased text after the
      last '.', or "" when the name has no '.'. */
  function CheckedExtension(name: string): (e: string)
    ensures '.' !in name ==> e == ""
    ensures '.' !in e
    ensures '.' in name ==> (|e| < |name| && name[|name| - |e| - 1] == '.' &&
      e == Text.Lower(name[|name| - |e|..]))
  {
    if '.' in name then
      var i := RFind(name, '.');
      var e := Text.Lower(name[i + 1..]);
      e
    else ""
  }

  /** `validate_file`: the verdict and its message. */
  function ValidateFile(name: string): (r: (bool, string))
  {
    if name == "" then (false, "文件名不能为空")
    else
      var e := CheckedExtension(name);
      if e in Config.DeniedExtensions then (false, "不支持的文件类型: ." + e)
      else if e !in Config.AllowedExtensions then (false, "不支持的文件类型: ." + e)
      else (true, "文件验证通过")
  }

  /** A name is accepted exactly when it is non-empty and its checked
      extension is allowed and not denied; because the two sets are
      disjoint, the deny test never changes the verdict, and a name without
      a '.' is always refused. */
  lemma ValidateFileVerdict(name: string)
    ensures ValidateFile(name).0 <==>
      name != "" && CheckedExtension(name) in Config.AllowedExtensions &&
      CheckedExtension(name) !in Config.DeniedExtensions
    ensures ValidateFile(name).0 <==> name != "" && CheckedExtension(name) in Config.AllowedExtensions
    ensures '.' !in name ==> !ValidateFile(name).0
    ensures !ValidateFile(name).0 && name != "" ==>
      ValidateFile(name).1 == "不支持的文件类型: ." + CheckedExtension(name)
  {
    Config.AllowedDeniedDisjoint();
    assert "" !in Config.AllowedExtensions;
  }

  /** `save_uploaded_file`'s stored name: timestamp, the first eight hex
      digits of the MD5 of the client's name, and that name. */
  function SavedUploadName(now: Clock.DateTime, nameDigest: Text.HexDigest, name: string): (r: string)
    requires Clock.ValidDateTime(now)
    ensures |r| == 25 + |name|
    ensures r[..15] == Clock.Format(now) && r[15] == '_'
    ensures r[16..24] == nameDigest[..8] && r[24] == '_' && r[25..] == name
  {
    Clock.Format(now) + "_" + nameDigest[..8] + "_" + name
  }

  /** Where `save_uploaded_file` stores the upload. */
  function SavedUploadPath(now: Clock.DateTime, nameDigest: Text.HexDigest, name: string): (r: string)
    requires Clock.ValidDateTime(now)
    ensures r == Config.UploadFolder + "/" + SavedUploadName(now, nameDigest, name)
  {
    Join(Config.UploadFolder, SavedUploadName(now, nameDigest, name))
  }

  // ---------------------------------------------------------------------
  // compress_file

  /** The suffix `compress_file` gives each algorithm's output. */
  function CompressedSuffix(alg: string): (r: Option<string>)
    ensures r.Some? <==> alg in Config.CompressionAlgorithms
  {
    if alg == "zip" then Some(".zip")
    else if alg == "tar" then Some(".tar")
    else if alg == "gzip" then Some(".gz")
    else if alg == "tar.gz" then Some(".tar.gz")
    else if alg == "tar.bz2" then Some(".tar.bz2")
    else None
  }

  /** The output path `compress_file` writes for a supported algorithm. */
  function CompressedPath(path: string, suffix: string): string
  {
    Stem(path) + suffix
  }

  /** What an archive writer leaves at its output when adding a missing
      input raises: the zip writer still closes a valid empty archive, a
      plain tar has written nothing, a compressed tar has closed an empty
      compressed stream. */
  function Leftover(alg: string): Content
  {
    if alg == "zip" then EmptyArchive(alg)
    else if alg == "tar" then Plain([])
    else Garbled
  }

  /** What an archive writer produces when its output is its own input: the
      tar writer skips the archive itself, the zip writer stores the bytes
      it is in the middle of writing. */
  function SelfArchive(alg: string, entry: string): Content
  {
    if alg == "zip" then Archive(alg, entry, Garbled) else EmptyArchive(alg)
  }

  /** How an archive records a node: a file's content, or a directory. */
  function Snapshot(n: Node): Content
  {
    if n.File? then n.content else Folder
  }

  /** `compress_file(path, alg)`: the new filesystem and the output path. */
  function CompressSpec(fs: Fs, path: string, alg: string): (r: (Fs, Result<string, FileError>))
  {
    match CompressedSuffix(alg)
    case None => (fs, Err(UnsupportedCompression(alg)))
    case Some(suffix) =>
      var out := CompressedPath(path, suffix);
      var entry := Basename(path);
      if IsDir(fs, out) then (fs, Err(CompressRaised(path)))
      else if alg == "gzip" then
        if !IsFile(fs, path) then (fs, Err(CompressRaised(path)))
        else if out == path then (fs[out := File(Archive(alg, entry, Plain([])))], Ok(out))
        else (fs[out := File(Archive(alg, entry, fs[path].content))], Ok(out))
      else if path !in fs then (fs[out := File(Leftover(alg))], Err(CompressRaised(path)))
      else if out == path then (fs[out := File(SelfArchive(alg, entry))], Ok(out))
      else (fs[out := File(Archive(alg, entry, Snapshot(fs[path])))], Ok(out))
  }

  /** Compressing a file onto a free or file-held name distinct from it
      writes one archive of the input at `Stem(path) + suffix` and changes
      nothing else; an unsupported algorithm changes nothing and fails. */
  lemma CompressEffect(fs: Fs, path: string, alg: string)
    ensures CompressedSuffix(alg).None? ==>
      CompressSpec(fs, path, alg) == (fs, Err(UnsupportedCompression(alg)))
    ensures (CompressedSuffix(alg).Some? && IsFile(fs, path) &&
      !IsDir(fs, Stem(path) + CompressedSuffix(alg).value) &&
      Stem(path) + CompressedSuffix(alg).value != path) ==>
        var out := Stem(path) + CompressedSuffix(alg).value;
        CompressSpec(fs, path, alg) ==
          (fs[out := File(Archive(alg, Basename(path), fs[path].content))], Ok(out))
    ensures CompressSpec(fs, path, alg).1.Ok? ==>
      CompressSpec(fs, path, alg).1.value == Stem(path) + CompressedSuffix(alg).value
  {
  }

  // ---------------------------------------------------------------------
  // extract_file and _find_extracted_file

  /** The container format a content was written in, if it is a container. */
  function FormatOf(c: Content): Option<string>
  {
    match c
    case Archive(alg, _, _) => Some(alg)
    case EmptyArchive(alg) => Some(alg)
    case _ => None
  }

  /** Whether reading `c` in `alg`'s mode succeeds; a plain tar reader
      detects gzip and bzip2 compression by itself. */
  predicate Opens(alg: string, c: Content)
  {
    FormatOf(c) == Some(alg) ||
    (alg == "tar" && (FormatOf(c) == Some("tar.gz") || FormatOf(c) == Some("tar.bz2")))
  }

  /** The bytes a gzip reader gets back from `c`, when `c` is a gzip stream.
      A compressed tar's stream yields the plain tar inside it. */
  function Gunzip(c: Content): Option<Content>
  {
    match c
    case Archive(alg, entry, inner) =>
      if alg == "gzip" then Some(inner)
      else if alg == "tar.gz" then Some(Archive("tar", entry, inner))
      else None
    case EmptyArchive(alg) => if alg == "tar.gz" then Some(EmptyArchive("tar")) else None
    case _ => None
  }

  /** The extraction directory of `path` for a millisecond timestamp. */
  function ExtractDir(path: string, stamp: nat): string
  {
    Stem(path) + "_extracted_" + Text.NatToString(stamp)
  }

  /** A directory walk: each visited directory with its files, in the order
      `os.walk` yields them. */
  type Walk = seq<(string, seq<string>)>

  /** The test `_find_extracted_file` applies to a walked file name. */
  predicate NameMatches(file: string, archiveStem: string)
  {
    var n := Stem(file);
    Text.Contains(n, archiveStem) || Text.Contains(archiveStem, n)
  }

  function FirstMatchIn(root: string, files: seq<string>, archiveStem: string): Option<string>
  {
    if files == [] then None
    else if NameMatches(files[0], archiveStem) then Some(Join(root, files[0]))
    else FirstMatchIn(root, files[1..], archiveStem)
  }

  function FirstMatch(walk: Walk, archiveStem: string): Option<string>
  {
    if walk == [] then None
    else match FirstMatchIn(walk[0].0, walk[0].1, archiveStem)
      case Some(p) => Some(p)
      case None => FirstMatch(walk[1..], archiveStem)
  }

  function FirstFile(walk: Walk): Option<string>
  {
    if walk == [] then None
    else if walk[0].1 != [] then Some(Join(walk[0].0, walk[0].1[0]))
    else FirstFile(walk[1..])
  }

  /** `_find_extracted_file`: the first walked file whose extension-less name
      contains, or is contained in, the archive's extension-less basename;
      else the first walked file; else the directory itself. */
  function FindExtracted(walk: Walk, dir: string, archive: string): string
  {
    var archiveStem := Stem(Basename(archive));
    match FirstMatch(walk, archiveStem)
    case Some(p) => p
    case None => match FirstFile(walk) case Some(p) => p case None => dir
  }

  /** A walked file: `Join(root, f)` for some directory of the walk and one
      of its files. */
  predicate Walked(walk: Walk, p: string)
  {
    exists i, j :: 0 <= i < |walk| && 0 <= j < |walk[i].1| && p == Join(walk[i].0, walk[i].1[j])
  }

  lemma {:induction false} FirstMatchInWalked(root: string, files: seq<string>, archiveStem: string)
    requires FirstMatchIn(root, files, archiveStem).Some?
    ensures exists j :: (0 <= j < |files| && NameMatches(files[j], archiveStem) &&
      FirstMatchIn(root, files, archiveStem).value == Join(root, files[j]) &&
      forall j' :: 0 <= j' < j ==> !NameMatches(files[j'], archiveStem))
  {
    if !NameMatches(files[0], archiveStem) {
      var rest := files[1..];
      assert FirstMatchIn(root, files, archiveStem) == FirstMatchIn(root, rest, archiveStem);
      FirstMatchInWalked(root, rest, archiveStem);
      var j :| 0 <= j < |rest| && NameMatches(rest[j], archiveStem) &&
        FirstMatchIn(root, rest, archiveStem).value == Join(root, rest[j]) &&
        forall j' :: 0 <= j' < j ==> !NameMatches(rest[j'], archiveStem);
      forall j' | 0 <= j' < j + 1 ensures !NameMatches(files[j'], archiveStem) {
        if j' > 0 { assert files[j'] == rest[j' - 1]; }
      }
      assert files[j + 1] == rest[j];
    } else {
      assert FirstMatchIn(root, files, archiveStem).value == Join(root, files[0]);
    }
  }

  lemma {:induction false} FirstMatchInNone(root: string, files: seq<string>, archiveStem: string)
    requires FirstMatchIn(root, files, archiveStem).None?
    ensures forall j :: 0 <= j < |files| ==> !NameMatches(files[j], archiveStem)
  {
    if files != [] {
      FirstMatchInNone(root, files[1..], archiveStem);
      forall j | 0 <= j < |files| ensures !NameMatches(files[j], archiveStem) {
        if j > 0 { assert files[j] == files[1..][j - 1]; }
      }
    }
  }

  lemma {:induction false} FirstMatchWalked(walk: Walk, archiveStem: string)
    requires FirstMatch(walk, archiveStem).Some?
    ensures Walked(walk, FirstMatch(walk, archiveStem).value)
  {
    var r := FirstMatchIn(walk[0].0, walk[0].1, archiveStem);
    if r.Some? {
      FirstMatchInWalked(walk[0].0, walk[0].1, archiveStem);
      var j :| 0 <= j < |walk[0].1| && FirstMatchIn(walk[0].0, walk[0].1, archiveStem).value == Join(walk[0].0, walk[0].1[j]);
      assert FirstMatch(walk, archiveStem).value == Join(walk[0].0, walk[0].1[j]);
    } else {
      FirstMatchWalked(walk[1..], archiveStem);
      var i, j :| 0 <= i < |walk[1..]| && 0 <= j < |walk[1..][i].1| &&
        FirstMatch(walk, archiveStem).value == Join(walk[1..][i].0, walk[1..][i].1[j]);
      assert walk[1..][i] == walk[i + 1];
    }
  }

  lemma {:induction false} FirstFileWalked(walk: Walk)
    requires FirstFile(walk).Some?
    ensures Walked(walk, FirstFile(walk).value)
    ensures exists i :: (0 <= i < |walk| && walk[i].1 != [] &&
      FirstFile(walk).value == Join(walk[i].0, walk[i].1[0]) &&
      forall i' :: 0 <= i' < i ==> walk[i'].1 == [])
  {
    if walk[0].1 == [] {
      FirstFileWalked(walk[1..]);
      var i :| 0 <= i < |walk[1..]| && walk[1..][i].1 != [] &&
        FirstFile(walk[1..]).value == Join(walk[1..][i].0, walk[1..][i].1[0]) &&
        forall i' :: 0 <= i' < i ==> walk[1..][i'].1 == [];
      assert walk[1..][i] == walk[i + 1];
      forall i' | 0 <= i' < i + 1 ensures walk[i'].1 == [] {
        if i' > 0 { assert walk[i'] == walk[1..][i' - 1]; }
      }
    } else {
      assert Join(walk[0].0, walk[0].1[0]) == FirstFile(walk).value;
    }
  }

  lemma {:induction false} FirstFileNone(walk: Walk)
    requires FirstFile(walk).None?
    ensures forall i :: 0 <= i < |walk| ==> walk[i].1 == []
  {
    if walk != [] {
      FirstFileNone(walk[1..]);
      forall i | 0 <= i < |walk| ensures walk[i].1 == [] {
        if i > 0 { assert walk[i] == walk[1..][i - 1]; }
      }
    }
  }

  /** The located file is always a walked file or the directory itself, and
      the directory only when the walk holds no file at all. */
  lemma FindExtractedShape(walk: Walk, dir: string, archive: string)
    ensures var r := FindExtracted(walk, dir, archive);
      Walked(walk, r) || (r == dir && forall i :: 0 <= i < |walk| ==> walk[i].1 == [])
  {
    var archiveStem := Stem(Basename(archive));
    if FirstMatch(walk, archiveStem).Some? {
      FirstMatchWalked(walk, archiveStem);
    } else if FirstFile(walk).Some? {
      FirstFileWalked(walk);
    } else {
      FirstFileNone(walk);
    }
  }

  /** `_find_extracted_file` as the two search loops the source runs. */
  method FindExtractedFile(walk: Walk, dir: string, archive: string) returns (r: string)
    ensures r == FindExtracted(walk, dir, archive)
  {
    var archiveStem := Stem(Basename(archive));
    var i := 0;
    while i < |walk|
      invariant 0 <= i <= |walk|
      invariant FirstMatch(walk, archiveStem) == FirstMatch(walk[i..], archiveStem)
    {
      var root := walk[i].0;
      var files := walk[i].1;
      var j := 0;
      while j < |files|
        invariant 0 <= j <= |files|
        invariant FirstMatchIn(root, files, archiveStem) == FirstMatchIn(root, files[j..], archiveStem)
      {
        if NameMatches(files[j], archiveStem) {
          assert FirstMatchIn(root, files[j..], archiveStem) == Some(Join(root, files[j]));
          return Join(root, files[j]);
        }
        assert files[j..][1..] == files[j + 1..];
        j := j + 1;
      }
      assert walk[i..][1..] == walk[i + 1..];
      i := i + 1;
    }
    i := 0;
    while i < |walk|
      invariant 0 <= i <= |walk|
      invariant FirstFile(walk) == FirstFile(walk[i..])
    {
      if walk[i].1 != [] {
        return Join(walk[i].0, walk[i].1[0]);
      }
      assert walk[i..][1..] == walk[i + 1..];
      i := i + 1;
    }
    return dir;
  }

  /** Unpacking an archive that opened into `dir`: its member is written
      under the directory, and the walk of the directory is returned. */
  function Unpack(fs: Fs, dir: string, c: Content): (r: (Fs, Walk))
    requires Opens("zip", c) || Opens("tar", c)
  {
    match c
    case Archive(_, entry, inner) =>
      if inner == Folder then (fs[Join(dir, entry) := Dir], [(dir, [])])
      else (fs[Join(dir, entry) := File(inner)], [(dir, [entry])])
    case EmptyArchive(_) => (fs, [(dir, [])])
  }

  /** `extract_file(path, alg)` with the millisecond clock reading `stamp`. */
  function ExtractSpec(fs: Fs, path: string, alg: string, stamp: nat): (r: (Fs, Result<string, FileError>))
  {
    var base := Stem(path);
    var dir := ExtractDir(path, stamp);
    if IsFile(fs, dir) then (fs, Err(ExtractRaised(path)))
    else
      var fs1 := RemoveTree(fs, dir)[dir := Dir];
      if alg == "zip" || alg == "tar" || alg == "tar.gz" || alg == "tar.bz2" then
        if !IsFile(fs1, path) || !Opens(alg, fs1[path].content) then (RemoveTree(fs1, dir), Err(ExtractRaised(path)))
        else
          var (fs2, walk) := Unpack(fs1, dir, fs1[path].content);
          var found := FindExtracted(walk, dir, path);
          (fs2, Ok(if found in fs2 then found else dir))
      else if alg == "gzip" then
        if !IsFile(fs1, path) || base == "" || IsDir(fs1, base) then (RemoveTree(fs1, dir), Err(ExtractRaised(path)))
        else if base == path then (fs1[base := File(Plain([]))], Ok(base))
        else match Gunzip(fs1[path].content)
          case Some(inner) => (fs1[base := File(inner)], Ok(base))
          case None => (RemoveTree(fs1[base := File(Plain([]))], dir), Err(ExtractRaised(path)))
      else (fs1, Err(UnsupportedExtraction(alg)))
  }

  /** Extracting an archive written by the same algorithm gives back its
      member: under the extraction directory for the zip and tar family,
      beside the archive for gzip. */
  lemma ExtractArchive(fs: Fs, path: string, alg: string, stamp: nat, entry: string, inner: Content)
    requires IsFile(fs, path) && fs[path].content == Archive(alg, entry, inner)
    requires alg in Config.CompressionAlgorithms
    requires inner != Folder
    requires !IsFile(fs, ExtractDir(path, stamp))
    requires alg == "gzip" ==> Stem(path) != path && Stem(path) != "" && !IsDir(fs, Stem(path))
    ensures var (fs', r) := ExtractSpec(fs, path, alg, stamp);
      r.Ok? && IsFile(fs', r.value) && fs'[r.value].content == inner &&
      (alg != "gzip" ==> r.value == Join(ExtractDir(path, stamp), entry)) &&
      (alg == "gzip" ==> r.value == Stem(path))
  {
    var dir := ExtractDir(path, stamp);
    var fs1 := RemoveTree(fs, dir)[dir := Dir];
    assert path != dir && !Under(dir, path) by {
      ExtractDirApart(path, stamp);
    }
    assert fs1[path] == fs[path];
    if alg != "gzip" {
      var target := Join(dir, entry);
      FindExtractedSingle(dir, entry, path);
    } else {
      assert path != dir;
      assert Stem(path) != dir;
    }
  }

  /** A walk holding a single file locates that file, matched or not. */
  lemma FindExtractedSingle(dir: string, entry: string, archive: string)
    ensures FindExtracted([(dir, [entry])], dir, archive) == Join(dir, entry)
  {
    var walk: Walk := [(dir, [entry])];
    var archiveStem := Stem(Basename(archive));
    assert walk[1..] == [];
    assert [entry][1..] == [];
    if NameMatches(entry, archiveStem) {
      assert FirstMatch(walk, archiveStem) == Some(Join(dir, entry));
    } else {
      assert FirstMatchIn(dir, [entry], archiveStem) == None;
      assert FirstMatch(walk, archiveStem) == None;
      assert FirstFile(walk) == Some(Join(dir, entry));
    }
  }

  /** The extraction directory is neither the archive nor an ancestor of it. */
  lemma ExtractDirApart(path: string, stamp: nat)
    ensures ExtractDir(path, stamp) != path
    ensures !Under(ExtractDir(path, stamp), path)
    ensures ExtractDir(path, stamp) != Stem(path)
    ensures !Under(ExtractDir(path, stamp), Stem(path))
  {
    var base := Stem(path);
    var dir := ExtractDir(path, stamp);
    assert |dir| > |base|;
    assert dir[|base|] == '_';
    assert path == base + Ext(path);
  }

  // ---------------------------------------------------------------------
  // change_extension

  /** `change_extension(path, ext)`: a node at the target is removed first,
      then the path is renamed onto it. */
  function ChangeExtensionSpec(fs: Fs, path: string, ext: string): (r: (Fs, Result<string, FileError>))
  {
    var target := Stem(path) + ext;
    if IsDir(fs, target) then (fs, Err(RenameRaised(path)))
    else
      var fs1 := fs - {target};
      if path !in fs1 then (fs1, Err(RenameRaised(path)))
      else (Move(fs1, path, target), Ok(target))
  }

  /** After a successful rename the old content sits at the target and the
      old path is gone, and no other path changes. */
  lemma ChangeExtensionMoves(fs: Fs, path: string, ext: string)
    requires path in fs && Stem(path) + ext != path && !IsDir(fs, Stem(path) + ext)
    ensures var (fs', r) := ChangeExtensionSpec(fs, path, ext);
      var target := Stem(path) + ext;
      r == Ok(target) && fs'[target] == fs[path] && path !in fs' &&
      forall p :: p != path && p != target ==> (p in fs' <==> p in fs) && (p in fs' ==> fs'[p] == fs[p])
  {
  }

  /** The rename fails exactly when the path is missing, the target is a
      directory, or the target is the path itself; the last case removes the
      path before failing. */
  lemma ChangeExtensionFails(fs: Fs, path: string, ext: string)
    ensures ChangeExtensionSpec(fs, path, ext).1.Err? <==>
      path !in fs || IsDir(fs, Stem(path) + ext) || Stem(path) + ext == path
    ensures (Stem(path) + ext == path && !IsDir(fs, path)) ==>
      ChangeExtensionSpec(fs, path, ext) == (fs - {path}, Err(RenameRaised(path)))
  {
  }

  // ---------------------------------------------------------------------
  // cleanup_temp_files

  /** One step of the listed-path branch: a directory goes only when its path
      mentions "_extracted", a file only when its path mentions the upload
      folder, a missing path is skipped. */
  function CleanupOne(fs: Fs, p: string): Fs
  {
    if p !in fs then fs
    else if fs[p].Dir? then (if Text.Contains(p, "_extracted") then RemoveTree(fs, p) else fs)
    else if Text.Contains(p, Config.UploadFolder) then fs - {p}
    else fs
  }

  /** The listed-path branch over the first `|ps|` paths, in order. */
  function CleanupList(fs: Fs, ps: seq<string>): Fs
  {
    if ps == [] then fs else CleanupOne(CleanupList(fs, ps[..|ps| - 1]), ps[|ps| - 1])
  }

  /** Why `q` may vanish when `p` is cleaned. */
  predicate Justified(fs: Fs, p: string, q: string)
  {
    p in fs &&
    ((fs[p].File? && q == p && Text.Contains(p, Config.UploadFolder)) ||
     (fs[p].Dir? && Text.Contains(p, "_extracted") && (q == p || Under(p, q))))
  }

  /** The listed-path branch only removes, never rewrites, and removes a path
      only for a reason some listed path gives; every listed file inside the
      upload folder and every listed "_extracted" directory is gone after. */
  lemma {:induction false} CleanupListEffect(fs: Fs, ps: seq<string>)
    ensures var r := CleanupList(fs, ps);
      (forall q :: q in r ==> q in fs && r[q] == fs[q]) &&
      (forall q :: q in fs && q !in r ==> exists k :: 0 <= k < |ps| && Justified(fs, ps[k], q)) &&
      (forall k :: 0 <= k < |ps| && Justified(fs, ps[k], ps[k]) ==> ps[k] !in r)
  {
    if ps != [] {
      var init := ps[..|ps| - 1];
      var p := ps[|ps| - 1];
      CleanupListEffect(fs, init);
      var mid := CleanupList(fs, init);
      var r := CleanupList(fs, ps);
      assert r == CleanupOne(mid, p);
      forall q | q in fs && q !in r
        ensures exists k :: 0 <= k < |ps| && Justified(fs, ps[k], q)
      {
        if q !in mid {
          var k :| 0 <= k < |init| && Justified(fs, init[k], q);
          assert ps[k] == init[k];
        } else {
          assert Justified(fs, ps[|ps| - 1], q);
        }
      }
      forall k | 0 <= k < |ps| && Justified(fs, ps[k], ps[k])
        ensures ps[k] !in r
      {
        if k < |ps| - 1 {
          assert ps[k] == init[k];
        }
      }
    }
  }

  /** The directory-wide branch, for an upload folder that is a directory:
      each direct child that is a file goes, and each direct child directory
      whose name mentions "_extracted" goes with everything under it. */
  function WipeUploads(fs: Fs): Fs
  {
    map q | q in fs && !WipedBy(fs, q) :: fs[q]
  }

  /** The direct child of the upload folder that `q` lies in or is. */
  function ChildName(q: string): Option<string>
  {
    var u := Config.UploadFolder + "/";
    if u <= q && |q| > |u| then
      var rest := q[|u|..];
      var k := FindFirst(rest, '/');
      Some(rest[..k])
    else None
  }

  /** Index of the first `c` in `s`, or `|s|` when there is none. */
  function FindFirst(s: string, c: char): (k: nat)
    ensures k <= |s|
    ensures forall j :: 0 <= j < k ==> s[j] != c
    ensures k < |s| ==> s[k] == c
  {
    if s == [] then 0 else if s[0] == c then 0 else 1 + FindFirst(s[1..], c)
  }

  predicate WipedBy(fs: Fs, q: string)
  {
    match ChildName(q)
    case None => false
    case Some(name) =>
      var child := Config.UploadFolder + "/" + name;
      (q == child && IsFile(fs, q)) ||
      (child in fs && fs[child].Dir? && Text.Contains(name, "_extracted"))
  }

  /** The outcome of `cleanup_temp_files`: the verdict, its message and the
      new filesystem. An empty or absent list cleans the whole upload
      folder, which fails when that name holds a file. */
  function CleanupTempFilesSpec(fs: Fs, paths: seq<string>): (r: (bool, string, Fs))
  {
    if paths != [] then (true, "清理完成", CleanupList(fs, paths))
    else if Config.UploadFolder !in fs then (true, "清理完成", fs)
    else if fs[Config.UploadFolder].File? then (false, "清理失败: ", fs)
    else (true, "清理完成", WipeUploads(fs))
  }

  /** The directory-wide branch removes every direct file child of the upload
      folder and leaves everything outside the folder alone. */
  lemma WipeUploadsEffect(fs: Fs, name: string)
    requires name != "" && '/' !in name
    ensures var r := WipeUploads(fs);
      var child := Config.UploadFolder + "/" + name;
      (IsFile(fs, child) ==> child !in r) &&
      (forall q :: q in r ==> q in fs && r[q] == fs[q]) &&
      (forall q :: q in fs && !(Config.UploadFolder + "/" <= q) ==> q in r)
  {
    var child := Config.UploadFolder + "/" + name;
    var u := Config.UploadFolder + "/";
    if IsFile(fs, child) {
      assert u <= child;
      var rest := child[|u|..];
      assert rest == name;
      var k := FindFirst(rest, '/');
      assert rest[..k] == name;
      assert ChildName(child) == Some(name);
      assert WipedBy(fs, child);
    }
  }

  // ---------------------------------------------------------------------
  // The processor object

  /** The processor with the filesystem it works on. */
  class FileProcessor {
    var fs: Fs

    /** The constructor makes sure the upload folder exists. */
    constructor(initial: Fs)
      requires !IsFile(initial, Config.UploadFolder)
      ensures fs == initial[Config.UploadFolder := Dir]
    {
      fs := initial[Config.UploadFolder := Dir];
    }

    method CompressFile(path: string, alg: string) returns (r: Result<string, FileError>)
      modifies this
      ensures (fs, r) == CompressSpec(old(fs), path, alg)
    {
      var suffix := CompressedSuffix(alg);
      if suffix.None? {
        return Err(UnsupportedCompression(alg));
      }
      var out := CompressedPath(path, suffix.value);
      var entry := Basename(path);
      if IsDir(fs, out) {
        return Err(CompressRaised(path));
      }
      if alg == "gzip" {
        if !IsFile(fs, path) {
          return Err(CompressRaised(path));
        }
        var data := if out == path then Plain([]) else fs[path].content;
        fs := fs[out := File(Archive(alg, entry, data))];
      } else if path !in fs {
        fs := fs[out := File(Leftover(alg))];
        return Err(CompressRaised(path));
      } else if out == path {
        fs := fs[out := File(SelfArchive(alg, entry))];
      } else {
        fs := fs[out := File(Archive(alg, entry, Snapshot(fs[path])))];
      }
      return Ok(out);
    }

    method ExtractFile(path: string, alg: string, stamp: nat) returns (r: Result<string, FileError>)
      modifies this
      ensures (fs, r) == ExtractSpec(old(fs), path, alg, stamp)
    {
      var base := Stem(path);
      var dir := ExtractDir(path, stamp);
      if IsFile(fs, dir) {
        return Err(ExtractRaised(path));
      }
      fs := RemoveTree(fs, dir)[dir := Dir];
      if alg == "zip" || alg == "tar" || alg == "tar.gz" || alg == "tar.bz2" {
        if !IsFile(fs, path) || !Opens(alg, fs[path].content) {
          fs := RemoveTree(fs, dir);
          return Err(ExtractRaised(path));
        }
        var unpacked := Unpack(fs, dir, fs[path].content);
        fs := unpacked.0;
        var found := FindExtractedFile(unpacked.1, dir, path);
        if found !in fs {
          found := dir;
        }
        return Ok(found);
      } else if alg == "gzip" {
        if !IsFile(fs, path) || base == "" || IsDir(fs, base) {
          fs := RemoveTree(fs, dir);
          return Err(ExtractRaised(path));
        }
        if base == path {
          fs := fs[base := File(Plain([]))];
          return Ok(base);
        }
        var inner := Gunzip(fs[path].content);
        if inner.None? {
          fs := RemoveTree(fs[base := File(Plain([]))], dir);
          return Err(ExtractRaised(path));
        }
        fs := fs[base := File(inner.value)];
        return Ok(base);
      }
      return Err(UnsupportedExtraction(alg));
    }

    method ChangeExtension(path: string, ext: string) returns (r: Result<string, FileError>)
      modifies this
      ensures (fs, r) == ChangeExtensionSpec(old(fs), path, ext)
    {
      var target := Stem(path) + ext;
      if IsDir(fs, target) {
        return Err(RenameRaised(path));
      }
      fs := fs - {target};
      if path !in fs {
        return Err(RenameRaised(path));
      }
      fs := Move(fs, path, target);
      return Ok(target);
    }

    /** `cleanup_temp_files`, the listed branch as the source's loop. */
    method CleanupTempFiles(paths: seq<string>) returns (ok: bool, msg: string)
      modifies this
      ensures (ok, msg, fs) == CleanupTempFilesSpec(old(fs), paths)
    {
      if paths != [] {
        var i := 0;
        while i < |paths|
          invariant 0 <= i <= |paths|
          invariant fs == CleanupList(old(fs), paths[..i])
        {
          assert paths[..i + 1][..i] == paths[..i];
          fs := CleanupOne(fs, paths[i]);
          i := i + 1;
        }
        assert paths[..i] == paths;
        return true, "清理完成";
      }
      if Config.UploadFolder !in fs {
        return true, "清理完成";
      }
      if fs[Config.UploadFolder].File? {
        return false, "清理失败: ";
      }
      fs := WipeUploads(fs);
      return true, "清理完成";
    }
  }
}
