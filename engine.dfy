/** The encryption engine: round planning, the ledger ("password book")
    check, and the multi-round encode and decode chains over the
    processor's filesystem. Random choices and clock readings are passed in
    as functions of the round number; file digests as a function of the
    content. */
module EncryptionEngine {
  import opened Wrappers
  import opened Paths
  import opened Files
  import opened Json
  import Text
  import Config

  // ---------------------------------------------------------------------
  // calculate_rounds

  /** The seed is used when it is present and not all whitespace. */
  predicate SeedMode(userInput: Option<string>)
  {
    userInput.Some? && userInput.value != "" && Text.Strip(userInput.value) != ""
  }

  /** Two leading hex digits of the digest, as a number, mod 10, plus 1. */
  function RoundsFromDigest(h: Text.HexDigest): (r: int)
    ensures 1 <= r <= 10
    ensures r == (16 * Text.HexValue(h[0]) + Text.HexValue(h[1])) % 10 + 1
  {
    (16 * Text.HexValue(h[0]) + Text.HexValue(h[1])) % 10 + 1
  }

  /** `calculate_rounds(user_input, manual_rounds)`; `md5` is the digest of
      the seed's encoding. */
  function CalculateRounds(userInput: Option<string>, manual: int, md5: string -> Text.HexDigest): (r: int)
    ensures 1 <= r <= 10
    ensures SeedMode(userInput) ==> r == RoundsFromDigest(md5(userInput.value))
    ensures !SeedMode(userInput) ==> r == if manual < 1 then 1 else if manual > 10 then 10 else manual
  {
    if SeedMode(userInput) then RoundsFromDigest(md5(userInput.value))
    else
      var low := if manual > 1 then manual else 1;
      if low < 10 then low else 10
  }

  /** Seed mode is taken exactly for a present seed holding a non-whitespace
      character, and a manual count already in range is kept. */
  lemma CalculateRoundsModes(userInput: Option<string>, manual: int, md5: string -> Text.HexDigest)
    ensures SeedMode(userInput) <==> userInput.Some? && !Text.AllSpace(userInput.value)
    ensures !SeedMode(userInput) && 1 <= manual <= 10 ==> CalculateRounds(userInput, manual, md5) == manual
  {
    if userInput.Some? {
      Text.StripEmpty(userInput.value);
    }
  }

  // ---------------------------------------------------------------------
  // _get_compressed_extension

  /** `_get_compressed_extension(alg)` for an algorithm read from a ledger:
      the five algorithms map to their suffixes, any other hashable value to
      ".zip"; a list or a dict is unhashable and raises. */
  function CompressedExtension(alg: Json): (r: Option<string>)
    ensures r.None? <==> alg.JArr? || alg.JObj?
  {
    match alg
    case JArr(_) => None
    case JObj(_) => None
    case JStr(s) => if CompressedSuffix(s).Some? then CompressedSuffix(s) else Some(".zip")
    case _ => Some(".zip")
  }

  /** The decode-side suffix agrees with the suffix `compress_file` used. */
  lemma CompressedExtensionAgrees(alg: string)
    ensures alg in Config.CompressionAlgorithms ==> CompressedExtension(JStr(alg)) == CompressedSuffix(alg)
    ensures alg !in Config.CompressionAlgorithms ==> CompressedExtension(JStr(alg)) == Some(".zip")
  {
  }

  // ---------------------------------------------------------------------
  // _validate_password_book

  const RequiredMetadata: seq<string> := ["encryption_time", "total_rounds", "original_filename", "original_hash"]

  /** Record `n` is present and names both an extension and an algorithm, in
      the sense of Python's `in` on whatever the record is. */
  predicate RecordPresent(rounds: Json, n: nat)
  {
    var key := Text.NatToString(n);
    PyIn(key, rounds) == Some(true) &&
    var rec := PyGet(rounds, key);
    rec.Some? && PyIn("extension", rec.value) == Some(true) && PyIn("algorithm", rec.value) == Some(true)
  }

  /** `_validate_password_book`; a raised exception counts as invalid. */
  predicate ValidatePasswordBook(book: Json)
  {
    PyIn("metadata", book) == Some(true) && PyIn("rounds", book) == Some(true) &&
    var meta := PyGet(book, "metadata");
    meta.Some? &&
    (forall k :: 0 <= k < |RequiredMetadata| ==> PyIn(RequiredMetadata[k], meta.value) == Some(true)) &&
    var total := PyGet(meta.value, "total_rounds");
    var rounds := PyGet(book, "rounds");
    total.Some? && rounds.Some? && PyLen(rounds.value).Some? &&
    PyInt(total.value) == Some(PyLen(rounds.value).value) &&
    forall n :: 1 <= n <= PyLen(rounds.value).value ==> RecordPresent(rounds.value, n)
  }

  /** The number of rounds a valid ledger records. */
  function RoundCount(book: Json): (n: nat)
    requires ValidatePasswordBook(book)
    ensures PyInt(book.fields["metadata"].fields["total_rounds"]) == Some(n)
  {
    PyLen(book.fields["rounds"]).value
  }

  /** The keys "1" .. "n". */
  function RoundKeys(n: nat): set<string>
  {
    set k | 1 <= k <= n :: Text.NatToString(k)
  }

  /** The keys "1" .. "n" are the keys below `n` and "n". */
  lemma RoundKeysStep(n: nat)
    requires n >= 1
    ensures RoundKeys(n) == RoundKeys(n - 1) + {Text.NatToString(n)}
  {
    forall x | x in RoundKeys(n)
      ensures x in RoundKeys(n - 1) + {Text.NatToString(n)}
    {
      var k :| 1 <= k <= n && x == Text.NatToString(k);
      if k < n {
        assert x in RoundKeys(n - 1);
      }
    }
    forall x | x in RoundKeys(n - 1)
      ensures x in RoundKeys(n)
    {
      var k :| 1 <= k <= n - 1 && x == Text.NatToString(k);
    }
    assert Text.NatToString(n) in RoundKeys(n);
  }

  lemma {:induction false} RoundKeysCount(n: nat)
    ensures |RoundKeys(n)| == n
  {
    if n > 0 {
      RoundKeysCount(n - 1);
      RoundKeysStep(n);
      if Text.NatToString(n) in RoundKeys(n - 1) {
        var k :| 1 <= k <= n - 1 && Text.NatToString(k) == Text.NatToString(n);
        Text.NatToStringInjective(k, n);
      }
    }
  }

  /** A valid ledger with at least one round keeps its rounds in a dict, and
      the keys of a dict of rounds are then exactly "1" .. "N"; a ledger with
      no rounds has an empty collection of rounds. */
  lemma ValidRoundKeys(book: Json)
    requires ValidatePasswordBook(book)
    ensures var rounds := book.fields["rounds"];
      (RoundCount(book) >= 1 ==> rounds.JObj?) &&
      (rounds.JObj? ==> rounds.fields.Keys == RoundKeys(RoundCount(book))) &&
      (RoundCount(book) == 0 ==> PyLen(rounds) == Some(0))
  {
    var rounds := book.fields["rounds"];
    var n := RoundCount(book);
    if n >= 1 {
      assert RecordPresent(rounds, 1);
    }
    if rounds.JObj? {
      var keys := rounds.fields.Keys;
      assert RoundKeys(n) <= keys by {
        forall s | s in RoundKeys(n) ensures s in keys {
          var k :| 1 <= k <= n && s == Text.NatToString(k);
          assert RecordPresent(rounds, k);
        }
      }
      RoundKeysCount(n);
      assert |keys| == n;
      SubsetSameSize(RoundKeys(n), keys);
    }
  }

  lemma {:induction false} SubsetSize<T>(a: set<T>, b: set<T>)
    requires a <= b
    ensures |a| <= |b|
    decreases a
  {
    if a != {} {
      var x :| x in a;
      SubsetSize(a - {x}, b - {x});
    }
  }

  lemma SubsetSameSize<T>(a: set<T>, b: set<T>)
    requires a <= b && |a| == |b|
    ensures a == b
  {
    if a != b {
      var x :| x in b && x !in a;
      SubsetSize(a, b - {x});
    }
  }

  /** A ledger with no rounds and an empty dict of rounds is accepted. */
  lemma ZeroRoundLedgerAccepted(meta: map<string, Json>)
    requires forall k :: 0 <= k < |RequiredMetadata| ==> RequiredMetadata[k] in meta
    requires "total_rounds" in meta && meta["total_rounds"] == JInt(0)
    ensures ValidatePasswordBook(JObj(map["metadata" := JObj(meta), "rounds" := JObj(map[])]))
  {
  }

  // ---------------------------------------------------------------------
  // Failures of the two chains

  datatype EngineError =
    | InvalidBook
    | NoAlgorithms(round: nat)
    | CompressFailed(round: nat, cause: FileError)
    | ExtensionFailed(round: nat, cause: FileError)
    | MissingFile(round: nat, path: string)
    | BadRecord(round: nat)
    | ExtractFailed(round: nat, cause: FileError)
    | MissingExtracted(round: nat, path: string)
    | MissingResult(path: string)
    | MoveFailed(path: string)

  /** The message each failure is reported with. A Python exception raised
      by a malformed record or by the final move has a text the model does
      not fix; it is shown as "". */
  function ErrorMessage(e: EngineError): string
  {
    var round := (n: nat) => "第" + Text.NatToString(n) + "轮";
    match e
    case InvalidBook => "密码本格式无效"
    case NoAlgorithms(_) => "Cannot choose from an empty sequence"
    case CompressFailed(n, c) => round(n) + "压缩失败: " + Message(c)
    case ExtensionFailed(n, c) => round(n) + "修改后缀名失败: " + Message(c)
    case MissingFile(n, p) => round(n) + "文件不存在: " + p
    case BadRecord(_) => ""
    case ExtractFailed(n, c) => round(n) + "解压失败: " + Message(c)
    case MissingExtracted(n, p) => round(n) + "解压后文件不存在: " + p
    case MissingResult(p) => "解密完成后文件不存在: " + p
    case MoveFailed(_) => ""
  }

  // ---------------------------------------------------------------------
  // _cleanup_temp_resources

  /** The file loop: a listed path goes when it is a file. */
  function RemoveFiles(fs: Fs, files: seq<string>): Fs
  {
    if files == [] then fs
    else
      var fs' := RemoveFiles(fs, files[..|files| - 1]);
      var p := files[|files| - 1];
      if IsFile(fs', p) then fs' - {p} else fs'
  }

  /** The directory loop: a listed path that is a directory goes with
      everything under it; `rmtree` on a file raises and is ignored. */
  function RemoveDirs(fs: Fs, dirs: seq<string>): Fs
  {
    if dirs == [] then fs
    else
      var fs' := RemoveDirs(fs, dirs[..|dirs| - 1]);
      var d := dirs[|dirs| - 1];
      if IsDir(fs', d) then RemoveTree(fs', d) else fs'
  }

  function CleanupTemp(fs: Fs, files: seq<string>, dirs: seq<string>): Fs
  {
    RemoveDirs(RemoveFiles(fs, files), dirs)
  }

  /** The file loop only removes listed files, and removes every one of them. */
  lemma {:induction false} RemoveFilesEffect(fs: Fs, files: seq<string>)
    ensures var r := RemoveFiles(fs, files);
      (forall q :: q in r ==> q in fs && r[q] == fs[q]) &&
      (forall q :: q in fs && q !in r ==> q in files && IsFile(fs, q)) &&
      (forall q :: q in files && IsFile(fs, q) ==> q !in r)
  {
    if files != [] {
      RemoveFilesEffect(fs, files[..|files| - 1]);
      forall q | q in files[..|files| - 1] ensures q in files { }
      forall q | q in files && IsFile(fs, q) ensures q !in RemoveFiles(fs, files) {
        if q != files[|files| - 1] {
          var k :| 0 <= k < |files| && files[k] == q;
          assert files[..|files| - 1][k] == q;
        }
      }
    }
  }

  /** The directory loop keeps every surviving entry as it was. */
  lemma {:induction false} RemoveDirsSubmap(fs: Fs, dirs: seq<string>)
    ensures forall q :: q in RemoveDirs(fs, dirs) ==> q in fs && RemoveDirs(fs, dirs)[q] == fs[q]
  {
    if dirs != [] {
      RemoveDirsSubmap(fs, dirs[..|dirs| - 1]);
    }
  }

  /** The directory loop removes only listed directories and what lies
      under them. */
  lemma {:induction false} RemoveDirsJustified(fs: Fs, dirs: seq<string>, q: string)
    requires q in fs && q !in RemoveDirs(fs, dirs)
    ensures exists d :: d in dirs && IsDir(fs, d) && (q == d || Under(d, q))
  {
    var init := dirs[..|dirs| - 1];
    var d := dirs[|dirs| - 1];
    assert d in dirs;
    RemoveDirsSubmap(fs, init);
    if q in RemoveDirs(fs, init) {
      assert IsDir(fs, d) && (q == d || Under(d, q));
    } else {
      RemoveDirsJustified(fs, init, q);
      var d' :| d' in init && IsDir(fs, d') && (q == d' || Under(d', q));
      assert d' in dirs;
    }
  }

  /** A listed directory goes, with everything under it. */
  lemma {:induction false} RemoveDirsComplete(fs: Fs, dirs: seq<string>, d: string, q: string)
    requires d in dirs && IsDir(fs, d) && (q == d || Under(d, q))
    ensures q !in RemoveDirs(fs, dirs)
  {
    var init := dirs[..|dirs| - 1];
    var last := dirs[|dirs| - 1];
    var mid := RemoveDirs(fs, init);
    if d != last {
      var k :| 0 <= k < |dirs| && dirs[k] == d;
      assert init[k] == d;
      RemoveDirsComplete(fs, init, d, q);
    } else if d in mid {
      RemoveDirsSubmap(fs, init);
    } else {
      // d went with an earlier directory, and q with it
      RemoveDirsJustified(fs, init, d);
      var d' :| d' in init && IsDir(fs, d') && (d == d' || Under(d', d));
      assert q == d' || Under(d', q);
      RemoveDirsComplete(fs, init, d', q);
    }
  }

  // ---------------------------------------------------------------------
  // The encode chain (multi_round_encrypt)

  /** `random.choice(xs)` for the injected draw. */
  function Choose(xs: seq<string>, draw: nat): (r: string)
    requires |xs| > 0
    ensures r in xs
  {
    xs[draw % |xs|]
  }

  /** Adds a working path to a cleanup list, unless it is the input or is
      listed already. */
  function Track(temp: seq<string>, p: string, origin: string): (r: seq<string>)
    ensures p != origin && p !in temp ==> r == temp + [p]
    ensures p == origin || p in temp ==> r == temp
    ensures temp <= r && |r| <= |temp| + 1
    ensures p in r <==> p in temp || p != origin
    ensures origin !in temp ==> origin !in r
  {
    if p != origin && p !in temp then temp + [p] else temp
  }

  /** The ledger record of one round. */
  function RoundRecord(ext: string, alg: string, compressed: string, encrypted: string): Json
  {
    JObj(map[
      "extension" := JStr(ext), "algorithm" := JStr(alg),
      "compressed_filename" := JStr(compressed), "encrypted_filename" := JStr(encrypted)])
  }

  datatype EncodeState = EncodeState(fs: Fs, cur: string, tempFiles: seq<string>, records: map<string, Json>)

  /** One encode round: compress the working file, rename the archive to the
      cosmetic extension, record both choices under the round number. */
  function EncodeRound(st: EncodeState, n: nat, alg: string, ext: string, origin: string): Result<EncodeState, (EngineError, EncodeState)>
  {
    var (fs1, r1) := CompressSpec(st.fs, st.cur, alg);
    match r1
    case Err(e) => Err((CompressFailed(n, e), st.(fs := fs1)))
    case Ok(compressed) =>
      var temp := Track(st.tempFiles, st.cur, origin);
      var (fs2, r2) := ChangeExtensionSpec(fs1, compressed, ext);
      match r2
      case Err(e) => Err((ExtensionFailed(n, e), EncodeState(fs2, st.cur, temp, st.records)))
      case Ok(encrypted) =>
        var record := RoundRecord(ext, alg, Basename(compressed), Basename(encrypted));
        Ok(EncodeState(fs2, encrypted, temp, st.records[Text.NatToString(n) := record]))
  }

  /** Rounds `n` .. `rounds`, with the algorithm of round `k` drawn by
      `algDraw(k)` and its extension by `extDraw(k)`. */
  function EncodeFrom(st: EncodeState, n: nat, rounds: int, algorithms: seq<string>,
                      algDraw: nat -> nat, extDraw: nat -> nat, origin: string): Result<EncodeState, (EngineError, EncodeState)>
    decreases if n <= rounds then rounds - n + 1 else 0, 1
  {
    if n > rounds then Ok(st) else EncodeNext(st, n, rounds, algorithms, algDraw, extDraw, origin)
  }

  /** Round `n`, which is due, and the rounds after it: without algorithms
      the encode stops, and so does a failing round. */
  function EncodeNext(st: EncodeState, n: nat, rounds: int, algorithms: seq<string>,
                      algDraw: nat -> nat, extDraw: nat -> nat, origin: string): Result<EncodeState, (EngineError, EncodeState)>
    requires n <= rounds
    decreases rounds - n + 1, 0
  {
    if |algorithms| == 0 then Err((NoAlgorithms(n), st))
    else
      var alg := Choose(algorithms, algDraw(n));
      var ext := Choose(Config.ExtensionPool, extDraw(n));
      match EncodeRound(st, n, alg, ext, origin)
      case Err(f) => Err(f)
      case Ok(st') => EncodeFrom(st', n + 1, rounds, algorithms, algDraw, extDraw, origin)
  }

  /** One round of `EncodeFrom`: without algorithms it stops, and otherwise
      the round's failure is the encode's, or the later rounds continue from
      the round's result. */
  lemma EncodeFromStep(st: EncodeState, n: nat, rounds: int, algorithms: seq<string>,
                       algDraw: nat -> nat, extDraw: nat -> nat, origin: string)
    requires n <= rounds
    ensures |algorithms| == 0 ==>
      EncodeFrom(st, n, rounds, algorithms, algDraw, extDraw, origin) == Err((NoAlgorithms(n), st))
    ensures |algorithms| > 0 ==>
      var r := EncodeRound(st, n, Choose(algorithms, algDraw(n)), Choose(Config.ExtensionPool, extDraw(n)), origin);
      EncodeFrom(st, n, rounds, algorithms, algDraw, extDraw, origin) ==
        if r.Err? then r else EncodeFrom(r.value, n + 1, rounds, algorithms, algDraw, extDraw, origin)
  {
  }

  /** `_calculate_file_hash`: the digest of a file's content, or "unknown"
      when the path is not a readable file. */
  function FileHash(fs: Fs, p: string, digest: Content -> string): string
  {
    if IsFile(fs, p) then digest(fs[p].content) else "unknown"
  }

  /** The algorithm list a call uses: the given one, or the configured one. */
  function AlgorithmsOf(algorithms: Option<seq<string>>): seq<string>
  {
    if algorithms.Some? then algorithms.value else Config.CompressionAlgorithms
  }

  /** The metadata written before the first round. */
  function InitialMetadata(fs: Fs, filePath: string, rounds: int, originalFilename: string,
                           now: string, digest: Content -> string): map<string, Json>
  {
    map[
      "encryption_time" := JStr(now),
      "total_rounds" := JInt(rounds),
      "original_filename" := JStr(if originalFilename != "" then originalFilename else Basename(filePath)),
      "original_hash" := JStr(FileHash(fs, filePath, digest))]
  }

  /** `multi_round_encrypt`: the filesystem afterwards and, on success, the
      final path and the ledger. `originalFilename` "" stands for an absent
      name. */
  function EncodeSpec(fs: Fs, filePath: string, rounds: int, algorithms: Option<seq<string>>,
                      originalFilename: string, now: string, algDraw: nat -> nat, extDraw: nat -> nat,
                      digest: Content -> string): (Fs, Result<(string, Json), EngineError>)
  {
    var meta := InitialMetadata(fs, filePath, rounds, originalFilename, now, digest);
    var start := EncodeState(fs, filePath, [], map[]);
    match EncodeFrom(start, 1, rounds, AlgorithmsOf(algorithms), algDraw, extDraw, filePath)
    case Err((e, st)) => (CleanupTemp(st.fs, st.tempFiles, []), Err(e))
    case Ok(st) =>
      var meta' := meta["final_filename" := JStr(Basename(st.cur))]["final_hash" := JStr(FileHash(st.fs, st.cur, digest))];
      var book := JObj(map["metadata" := JObj(meta'), "rounds" := JObj(st.records)]);
      (CleanupTemp(st.fs, st.tempFiles, []), Ok((st.cur, book)))
  }

  // ---------------------------------------------------------------------
  // The decode chain (multi_round_decrypt)

  datatype Progress = Progress(fs: Fs, cur: string, tempFiles: seq<string>, tempDirs: seq<string>)

  /** Steps 2 and 3 of a decode round: switch to `Stem(cur) + ext` when the
      extension differs and that file exists, then bring the file to its
      compressed-stage name, renaming it only when that name is free. */
  function Restage(fs: Fs, cur: string, ext: string, cext: string): (r: (Fs, string))
    requires cur in fs
    ensures r.1 in r.0
  {
    var cur1 := if Ext(cur) != ext && Stem(cur) + ext in fs then Stem(cur) + ext else cur;
    var compressed := Stem(cur1) + cext;
    if cur1 != compressed && compressed !in fs then (Move(fs, cur1, compressed), compressed)
    else if compressed in fs then (fs, compressed)
    else (fs, cur1)
  }

  /** The string a ledger value holds, or "" for a value that is not a
      string; an algorithm that is not a string matches none of the five in
      `extract_file`. */
  function StrValue(x: Json): string
  {
    if x.JStr? then x.s else ""
  }

  /** One decode round for record `rec` of round `n`. */
  function DecodeRound(st: Progress, n: nat, rec: Json, stamp: nat, origin: string): Result<Progress, (EngineError, Progress)>
  {
    if st.cur !in st.fs then Err((MissingFile(n, st.cur), st))
    else match PyGet(rec, "extension")
    case None => Err((BadRecord(n), st))
    case Some(extJ) =>
      if !extJ.JStr? then Err((BadRecord(n), st))
      else match PyGet(rec, "algorithm")
      case None => Err((BadRecord(n), st))
      case Some(algJ) =>
        match CompressedExtension(algJ)
        case None => Err((BadRecord(n), st))
        case Some(cext) =>
          var (fs1, cur1) := Restage(st.fs, st.cur, extJ.s, cext);
          ExtractStage(st, n, fs1, cur1, StrValue(algJ), stamp, origin)
  }

  /** Steps 4 and 5 of a decode round: extract the restaged file `cur1` on
      `fs1`, record it as temporary, and continue from what it held, noting a
      directory result as a temporary directory. */
  function ExtractStage(st: Progress, n: nat, fs1: Fs, cur1: string, alg: string, stamp: nat, origin: string)
    : Result<Progress, (EngineError, Progress)>
  {
    var temp := Track(st.tempFiles, cur1, origin);
    var (fs2, r) := ExtractSpec(fs1, cur1, alg, stamp);
    match r
    case Err(e) => Err((ExtractFailed(n, e), Progress(fs2, cur1, temp, st.tempDirs)))
    case Ok(out) =>
      if out !in fs2 then Err((MissingExtracted(n, out), Progress(fs2, cur1, temp, st.tempDirs)))
      else
        var dirs := if IsDir(fs2, out) && out !in st.tempDirs then st.tempDirs + [out] else st.tempDirs;
        Ok(Progress(fs2, out, Track(temp, cur1, origin), dirs))
  }

  /** Rounds `n`, `n - 1`, .., 1 of a decode, round `k` reading the clock as
      `stamp(k)`. */
  function DecodeFrom(st: Progress, rounds: Json, n: nat, stamp: nat -> nat, origin: string): Result<Progress, (EngineError, Progress)>
    decreases n, 1
  {
    if n == 0 then Ok(st) else DecodeRecord(st, rounds, n, stamp, origin)
  }

  /** Record `n` of the book and the rounds below it: a missing record
      stops the decode, and so does a failing round. */
  function DecodeRecord(st: Progress, rounds: Json, n: nat, stamp: nat -> nat, origin: string): Result<Progress, (EngineError, Progress)>
    requires n > 0
    decreases n, 0
  {
    match PyGet(rounds, Text.NatToString(n))
    case None => Err((BadRecord(n), st))
    case Some(rec) =>
      match DecodeRound(st, n, rec, stamp(n), origin)
      case Err(f) => Err(f)
      case Ok(st') => DecodeFrom(st', rounds, n - 1, stamp, origin)
  }

  /** One round of `DecodeFrom`: a missing record stops it, and otherwise
      the round's failure is the decode's, or the remaining rounds continue
      from the round's result. */
  lemma DecodeFromStep(st: Progress, rounds: Json, n: nat, stamp: nat -> nat, origin: string)
    requires n > 0
    ensures PyGet(rounds, Text.NatToString(n)).None? ==>
      DecodeFrom(st, rounds, n, stamp, origin) == Err((BadRecord(n), st))
    ensures PyGet(rounds, Text.NatToString(n)).Some? ==>
      var r := DecodeRound(st, n, PyGet(rounds, Text.NatToString(n)).value, stamp(n), origin);
      DecodeFrom(st, rounds, n, stamp, origin) == if r.Err? then r else DecodeFrom(r.value, rounds, n - 1, stamp, origin)
  {
  }

  /** The rounds `n`, .., 1 still to run from `st` end in `whole`. */
  ghost predicate DecodesTo(st: Progress, rounds: Json, n: nat, stamp: nat -> nat, origin: string,
                            whole: Result<Progress, (EngineError, Progress)>)
  {
    DecodeFrom(st, rounds, n, stamp, origin) == whole
  }

  /** The target a decoded file inside an extraction directory is moved to. */
  function MoveTarget(cur: string): string
  {
    Join(Config.UploadFolder, Basename(cur))
  }

  /** The stage after the last round: the result must exist; a result whose
      path mentions "extracted_" is moved into the upload folder, replacing
      what is there, and a directory there is zipped instead. */
  function Finish(st: Progress): Result<(Fs, string), (EngineError, Progress)>
  {
    var fs := st.fs;
    var cur := st.cur;
    if cur !in fs then Err((MissingResult(cur), st))
    else if !Text.Contains(cur, "extracted_") then Ok((fs, cur))
    else
      var target := MoveTarget(cur);
      if IsDir(fs, target) then Err((MoveFailed(target), st))
      else
        var fs1 := fs - {target};
        if IsFile(fs1, cur) then Ok((Move(fs1, cur, target), target))
        else if IsDir(fs1, cur) then
          var zipPath := Join(Config.UploadFolder, Basename(cur) + ".zip");
          if IsDir(fs1, zipPath) then Err((MoveFailed(zipPath), st.(fs := fs1)))
          else Ok((fs1[zipPath := File(Garbled)], zipPath))
        else Ok((fs1, cur))
  }

  /** A failed decode: the temporary files and directories recorded so far
      go, and the error is reported. */
  function Abandon(e: EngineError, st: Progress): (Fs, Result<string, EngineError>)
  {
    (CleanupTemp(st.fs, st.tempFiles, st.tempDirs), Err(e))
  }

  /** The end of a decode whose rounds all succeeded. */
  function Conclude(st: Progress): (Fs, Result<string, EngineError>)
  {
    match Finish(st)
    case Err((e, st')) => Abandon(e, st')
    case Ok((fs', path)) => (fs', Ok(path))
  }

  /** `multi_round_decrypt`: the filesystem afterwards and the decoded path.
      Cleanup runs only when a step fails. */
  function DecodeSpec(fs: Fs, filePath: string, book: Json, stamp: nat -> nat): (Fs, Result<string, EngineError>)
  {
    if !ValidatePasswordBook(book) then (fs, Err(InvalidBook))
    else
      match DecodeFrom(Progress(fs, filePath, [], []), book.fields["rounds"], RoundCount(book), stamp, filePath)
      case Err((e, st)) => Abandon(e, st)
      case Ok(st) => Conclude(st)
  }

  /** An invalid ledger is refused before any file is touched; a decode
      that succeeds ran every round and the final stage, and keeps what the
      final stage left, with no cleanup. */
  lemma DecodeVerdict(fs: Fs, filePath: string, book: Json, stamp: nat -> nat)
    ensures !ValidatePasswordBook(book) ==> DecodeSpec(fs, filePath, book, stamp) == (fs, Err(InvalidBook))
    ensures var (fs', r) := DecodeSpec(fs, filePath, book, stamp);
      r.Ok? ==> (ValidatePasswordBook(book) &&
        var rounds := DecodeFrom(Progress(fs, filePath, [], []), book.fields["rounds"], RoundCount(book), stamp, filePath);
        rounds.Ok? && Finish(rounds.value) == Ok((fs', r.value)))
  {
  }

  // ---------------------------------------------------------------------
  // The engine object

  class Engine {
    const processor: FileProcessor

    constructor(initial: Fs)
      requires !IsFile(initial, Config.UploadFolder)
      ensures fresh(processor)
      ensures processor.fs == initial[Config.UploadFolder := Dir]
    {
      processor := new FileProcessor(initial);
    }

    /** `_cleanup_temp_resources`, as its two loops. */
    method CleanupTempResources(files: seq<string>, dirs: seq<string>)
      modifies processor
      ensures processor.fs == CleanupTemp(old(processor.fs), files, dirs)
    {
      ghost var start := processor.fs;
      var i := 0;
      while i < |files|
        invariant 0 <= i <= |files|
        invariant processor.fs == RemoveFiles(start, files[..i])
      {
        assert files[..i + 1][..i] == files[..i];
        if IsFile(processor.fs, files[i]) {
          processor.fs := processor.fs - {files[i]};
        }
        i := i + 1;
      }
      assert files[..i] == files;
      ghost var afterFiles := processor.fs;
      i := 0;
      while i < |dirs|
        invariant 0 <= i <= |dirs|
        invariant processor.fs == RemoveDirs(afterFiles, dirs[..i])
      {
        assert dirs[..i + 1][..i] == dirs[..i];
        if IsDir(processor.fs, dirs[i]) {
          processor.fs := RemoveTree(processor.fs, dirs[i]);
        }
        i := i + 1;
      }
      assert dirs[..i] == dirs;
    }

    /** `multi_round_encrypt` as its round loop. */
    method MultiRoundEncrypt(filePath: string, rounds: int, algorithms: Option<seq<string>>,
                             originalFilename: string, now: string, algDraw: nat -> nat,
                             extDraw: nat -> nat, digest: Content -> string)
      returns (r: Result<(string, Json), EngineError>)
      modifies processor
      ensures (processor.fs, r) == EncodeSpec(old(processor.fs), filePath, rounds, algorithms,
                                              originalFilename, now, algDraw, extDraw, digest)
    {
      ghost var fs0 := processor.fs;
      var algs := AlgorithmsOf(algorithms);
      var meta := InitialMetadata(processor.fs, filePath, rounds, originalFilename, now, digest);
      ghost var whole := EncodeFrom(EncodeState(fs0, filePath, [], map[]), 1, rounds, algs, algDraw, extDraw, filePath);
      var cur := filePath;
      var temp: seq<string> := [];
      var records: map<string, Json> := map[];
      var n := 1;
      while n <= rounds
        invariant n >= 1
        invariant EncodeFrom(EncodeState(processor.fs, cur, temp, records), n, rounds, algs, algDraw, extDraw, filePath) == whole
        decreases rounds - n
      {
        ghost var here := EncodeState(processor.fs, cur, temp, records);
        EncodeFromStep(here, n, rounds, algs, algDraw, extDraw, filePath);
        if |algs| == 0 {
          CleanupTempResources(temp, []);
          return Err(NoAlgorithms(n));
        }
        var alg := Choose(algs, algDraw(n));
        var ext := Choose(Config.ExtensionPool, extDraw(n));
        var compressed := processor.CompressFile(cur, alg);
        if compressed.Err? {
          assert EncodeRound(here, n, alg, ext, filePath) == Err((CompressFailed(n, compressed.error), here.(fs := processor.fs)));
          CleanupTempResources(temp, []);
          return Err(CompressFailed(n, compressed.error));
        }
        ghost var fs1 := processor.fs;
        temp := Track(temp, cur, filePath);
        var encrypted := processor.ChangeExtension(compressed.value, ext);
        if encrypted.Err? {
          assert EncodeRound(here, n, alg, ext, filePath) ==
            Err((ExtensionFailed(n, encrypted.error), EncodeState(processor.fs, cur, temp, records)));
          CleanupTempResources(temp, []);
          return Err(ExtensionFailed(n, encrypted.error));
        }
        records := records[Text.NatToString(n) := RoundRecord(ext, alg, Basename(compressed.value), Basename(encrypted.value))];
        cur := encrypted.value;
        assert EncodeRound(here, n, alg, ext, filePath) == Ok(EncodeState(processor.fs, cur, temp, records));
        n := n + 1;
      }
      meta := meta["final_filename" := JStr(Basename(cur))]["final_hash" := JStr(FileHash(processor.fs, cur, digest))];
      var book := JObj(map["metadata" := JObj(meta), "rounds" := JObj(records)]);
      CleanupTempResources(temp, []);
      return Ok((cur, book));
    }

    /** One round of `multi_round_decrypt`. */
    method DecryptRound(cur: string, temp: seq<string>, dirs: seq<string>, n: nat, rec: Json,
                        stamp: nat, origin: string)
      returns (r: Result<Progress, (EngineError, Progress)>)
      modifies processor
      ensures r == DecodeRound(Progress(old(processor.fs), cur, temp, dirs), n, rec, stamp, origin)
      ensures processor.fs == (if r.Ok? then r.value.fs else r.error.1.fs)
    {
      var st := Progress(processor.fs, cur, temp, dirs);
      if cur !in processor.fs {
        return Err((MissingFile(n, cur), st));
      }
      var extJ := PyGet(rec, "extension");
      var algJ := PyGet(rec, "algorithm");
      if extJ.None? || !extJ.value.JStr? || algJ.None? || CompressedExtension(algJ.value).None? {
        return Err((BadRecord(n), st));
      }
      var ext := extJ.value.s;
      var cext := CompressedExtension(algJ.value).value;
      var cur1 := cur;
      if Ext(cur) != ext && Stem(cur) + ext in processor.fs {
        cur1 := Stem(cur) + ext;
      }
      var compressed := Stem(cur1) + cext;
      if cur1 != compressed && compressed !in processor.fs {
        processor.fs := Move(processor.fs, cur1, compressed);
        cur1 := compressed;
      } else if compressed in processor.fs {
        cur1 := compressed;
      }
      assert (processor.fs, cur1) == Restage(old(processor.fs), cur, ext, cext);
      r := ExtractRestaged(st, n, cur1, StrValue(algJ.value), stamp, origin);
    }

    /** Steps 4 and 5 of a decode round, on the restaged file `cur1`. */
    method ExtractRestaged(st: Progress, n: nat, cur1: string, alg: string, stamp: nat, origin: string)
      returns (r: Result<Progress, (EngineError, Progress)>)
      modifies processor
      ensures r == ExtractStage(st, n, old(processor.fs), cur1, alg, stamp, origin)
      ensures processor.fs == (if r.Ok? then r.value.fs else r.error.1.fs)
    {
      var temp1 := Track(st.tempFiles, cur1, origin);
      var out := processor.ExtractFile(cur1, alg, stamp);
      if out.Err? {
        return Err((ExtractFailed(n, out.error), Progress(processor.fs, cur1, temp1, st.tempDirs)));
      }
      if out.value !in processor.fs {
        return Err((MissingExtracted(n, out.value), Progress(processor.fs, cur1, temp1, st.tempDirs)));
      }
      var dirs1 := st.tempDirs;
      if IsDir(processor.fs, out.value) && out.value !in st.tempDirs {
        dirs1 := st.tempDirs + [out.value];
      }
      return Ok(Progress(processor.fs, out.value, Track(temp1, cur1, origin), dirs1));
    }

    /** The stage of `multi_round_decrypt` after the last round. */
    method FinishDecrypt(cur: string, temp: seq<string>, dirs: seq<string>)
      returns (r: Result<string, EngineError>)
      modifies processor
      ensures (processor.fs, r) == Conclude(Progress(old(processor.fs), cur, temp, dirs))
    {
      if cur !in processor.fs {
        CleanupTempResources(temp, dirs);
        return Err(MissingResult(cur));
      }
      if !Text.Contains(cur, "extracted_") {
        return Ok(cur);
      }
      var target := MoveTarget(cur);
      if IsDir(processor.fs, target) {
        CleanupTempResources(temp, dirs);
        return Err(MoveFailed(target));
      }
      processor.fs := processor.fs - {target};
      if IsFile(processor.fs, cur) {
        processor.fs := Move(processor.fs, cur, target);
        return Ok(target);
      } else if IsDir(processor.fs, cur) {
        var zipPath := Join(Config.UploadFolder, Basename(cur) + ".zip");
        if IsDir(processor.fs, zipPath) {
          CleanupTempResources(temp, dirs);
          return Err(MoveFailed(zipPath));
        }
        processor.fs := processor.fs[zipPath := File(Garbled)];
        return Ok(zipPath);
      }
      return Ok(cur);
    }

    /** One pass of the round loop of `multi_round_decrypt`: read record
        `n` and run its round from `st`. */
    method DecryptStep(st: Progress, n: nat, rounds: Json, stamp: nat -> nat, origin: string,
                       ghost whole: Result<Progress, (EngineError, Progress)>)
      returns (r: Result<Progress, (EngineError, Progress)>)
      requires n > 0 && st.fs == processor.fs
      requires DecodesTo(st, rounds, n, stamp, origin, whole)
      modifies processor
      ensures r.Err? ==> r == whole
      ensures r.Ok? ==> DecodesTo(r.value, rounds, n - 1, stamp, origin, whole)
      ensures processor.fs == (if r.Ok? then r.value.fs else r.error.1.fs)
    {
      DecodeFromStep(st, rounds, n, stamp, origin);
      var rec := PyGet(rounds, Text.NatToString(n));
      if rec.None? {
        return Err((BadRecord(n), st));
      }
      assert st == Progress(processor.fs, st.cur, st.tempFiles, st.tempDirs);
      r := DecryptRound(st.cur, st.tempFiles, st.tempDirs, n, rec.value, stamp(n), origin);
    }

    /** The round loop of `multi_round_decrypt`, counting down from `total`;
        a failure leaves the progress it was reported with. */
    method DecryptRounds(filePath: string, rounds: Json, total: nat, stamp: nat -> nat)
      returns (r: Result<Progress, (EngineError, Progress)>)
      modifies processor
      ensures r == DecodeFrom(Progress(old(processor.fs), filePath, [], []), rounds, total, stamp, filePath)
      ensures processor.fs == (if r.Ok? then r.value.fs else r.error.1.fs)
    {
      ghost var whole := DecodeFrom(Progress(processor.fs, filePath, [], []), rounds, total, stamp, filePath);
      var st := Progress(processor.fs, filePath, [], []);
      var n := total;
      while n > 0
        invariant st.fs == processor.fs
        invariant DecodesTo(st, rounds, n, stamp, filePath, whole)
      {
        var step := DecryptStep(st, n, rounds, stamp, filePath, whole);
        if step.Err? {
          return step;
        }
        st := step.value;
        n := n - 1;
      }
      return Ok(st);
    }

    /** `multi_round_decrypt`. */
    method MultiRoundDecrypt(filePath: string, book: Json, stamp: nat -> nat)
      returns (r: Result<string, EngineError>)
      modifies processor
      ensures (processor.fs, r) == DecodeSpec(old(processor.fs), filePath, book, stamp)
    {
      if !ValidatePasswordBook(book) {
        return Err(InvalidBook);
      }
      var done := DecryptRounds(filePath, book.fields["rounds"], RoundCount(book), stamp);
      if done.Err? {
        CleanupTempResources(done.error.1.tempFiles, done.error.1.tempDirs);
        return Err(done.error.0);
      }
      r := FinishDecrypt(done.value.cur, done.value.tempFiles, done.value.tempDirs);
    }
  }
}
