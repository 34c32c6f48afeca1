/** What the encode and decode chains do to a file together: the names an
    encode plan walks through, the archive layers it wraps the content in,
    the ledger it writes, and the conditions under which the decode peels
    every layer back off. Alongside, the ways the chains lose a file. */
module RoundTrip {
  import opened Wrappers
  import opened Paths
  import opened Files
  import opened Json
  import opened EncryptionEngine
  import Text
  import Config

  // ---------------------------------------------------------------------
  // The names and contents of an encode

  /** An encode's input path and its random draws, as functions of the round. */
  datatype Plan = Plan(path: string, algs: seq<string>, algDraw: nat -> nat, extDraw: nat -> nat)

  function AlgAt(pl: Plan, i: nat): string
    requires |pl.algs| > 0
  {
    Choose(pl.algs, pl.algDraw(i))
  }

  function ExtAt(pl: Plan, i: nat): string
  {
    Choose(Config.ExtensionPool, pl.extDraw(i))
  }

  function SuffixOf(alg: string): string
  {
    match CompressedSuffix(alg)
    case Some(s) => s
    case None => ""
  }

  /** Round `i` of the plan turns working file `cur[i - 1]` into archive
      `out[i]` and renames that to working file `cur[i]`. */
  predicate NamedStep(pl: Plan, cur: seq<string>, out: seq<string>, i: nat)
    requires |pl.algs| > 0 && 1 <= i < |cur| && i < |out|
  {
    out[i] == Stem(cur[i - 1]) + SuffixOf(AlgAt(pl, i)) && cur[i] == Stem(out[i]) + ExtAt(pl, i)
  }

  /** `cur` and `out` are the names an `n`-round encode of the plan walks
      through: `cur[0]` is the input, and `out[0]` is unused. */
  predicate PlanNames(pl: Plan, cur: seq<string>, out: seq<string>, n: nat)
  {
    |pl.algs| > 0 && |cur| == n + 1 && |out| == n + 1 && cur[0] == pl.path &&
    forall i :: 1 <= i <= n ==> NamedStep(pl, cur, out, i)
  }

  /** The names of the first `n` rounds of a plan. */
  function NamesOf(pl: Plan, n: nat): (r: (seq<string>, seq<string>))
    requires |pl.algs| > 0
    ensures PlanNames(pl, r.0, r.1, n)
  {
    if n == 0 then ([pl.path], [""])
    else
      var names := NamesOf(pl, n - 1);
      NextNames(pl, names.0, names.1, n - 1)
  }

  /** The names of the first `n + 1` rounds, from those of the first `n`. */
  function NextNames(pl: Plan, cur: seq<string>, out: seq<string>, n: nat): (r: (seq<string>, seq<string>))
    requires PlanNames(pl, cur, out, n)
    ensures PlanNames(pl, r.0, r.1, n + 1) && r.0[..n + 1] == cur && r.1[..n + 1] == out
  {
    var o := Stem(cur[n]) + SuffixOf(AlgAt(pl, n + 1));
    var c := Stem(o) + ExtAt(pl, n + 1);
    NamesExtend(pl, cur, out, n, o, c);
    assert (cur + [c])[..n + 1] == cur && (out + [o])[..n + 1] == out;
    (cur + [c], out + [o])
  }

  /** The names of one more round extend the names of a plan. */
  lemma NamesExtend(pl: Plan, cur: seq<string>, out: seq<string>, n: nat, o: string, c: string)
    requires PlanNames(pl, cur, out, n)
    requires o == Stem(cur[n]) + SuffixOf(AlgAt(pl, n + 1)) && c == Stem(o) + ExtAt(pl, n + 1)
    ensures PlanNames(pl, cur + [c], out + [o], n + 1)
  {
    forall i | 1 <= i <= n
      ensures NamedStep(pl, cur + [c], out + [o], i)
    {
      NamedStepAppend(pl, cur, out, i, o, c);
    }
    NamedStepLast(pl, cur, out, n, o, c);
  }

  lemma NamedStepAppend(pl: Plan, cur: seq<string>, out: seq<string>, i: nat, o: string, c: string)
    requires |pl.algs| > 0 && 1 <= i < |cur| && i < |out| && NamedStep(pl, cur, out, i)
    ensures NamedStep(pl, cur + [c], out + [o], i)
  {
    assert (cur + [c])[i - 1] == cur[i - 1] && (cur + [c])[i] == cur[i] && (out + [o])[i] == out[i];
  }

  lemma NamedStepLast(pl: Plan, cur: seq<string>, out: seq<string>, n: nat, o: string, c: string)
    requires |pl.algs| > 0 && |cur| == n + 1 && |out| == n + 1
    requires o == Stem(cur[n]) + SuffixOf(AlgAt(pl, n + 1)) && c == Stem(o) + ExtAt(pl, n + 1)
    ensures NamedStep(pl, cur + [c], out + [o], n + 1)
  {
    assert (cur + [c])[n] == cur[n] && (cur + [c])[n + 1] == c && (out + [o])[n + 1] == o;
  }

  /** The names an encode walks through are determined by the plan. */
  lemma {:induction false} PlanNamesUnique(pl: Plan, n: nat, cur: seq<string>, out: seq<string>,
                                           cur': seq<string>, out': seq<string>, i: nat)
    requires PlanNames(pl, cur, out, n) && PlanNames(pl, cur', out', n) && i <= n
    ensures cur[i] == cur'[i] && (i >= 1 ==> out[i] == out'[i])
  {
    if i >= 1 {
      PlanNamesUnique(pl, n, cur, out, cur', out', i - 1);
      assert NamedStep(pl, cur, out, i) && NamedStep(pl, cur', out', i);
      assert out[i] == Stem(cur[i - 1]) + SuffixOf(AlgAt(pl, i)) == out'[i];
      assert cur[i] == Stem(out[i]) + ExtAt(pl, i) == cur'[i];
    }
  }

  /** The content of the working file after round `i`: one archive layer per
      round, each holding the previous working file under its basename. */
  function Wrap(fs0: Fs, pl: Plan, cur: seq<string>, i: nat): Content
    requires |pl.algs| > 0 && IsFile(fs0, pl.path) && i < |cur|
  {
    if i == 0 then fs0[pl.path].content
    else Archive(AlgAt(pl, i), Basename(cur[i - 1]), Wrap(fs0, pl, cur, i - 1))
  }

  /** The record round `i` writes into the ledger. */
  function RecordOf(pl: Plan, cur: seq<string>, out: seq<string>, i: nat): Json
    requires |pl.algs| > 0 && i < |cur| && i < |out|
  {
    RoundRecord(ExtAt(pl, i), AlgAt(pl, i), Basename(out[i]), Basename(cur[i]))
  }

  /** The ledger records of rounds 1 .. `i`. */
  function Records(pl: Plan, cur: seq<string>, out: seq<string>, i: nat): map<string, Json>
    requires |pl.algs| > 0 && i < |cur| && i < |out|
  {
    if i == 0 then map[]
    else Records(pl, cur, out, i - 1)[Text.NatToString(i) := RecordOf(pl, cur, out, i)]
  }

  /** The cleanup list after round `i`. */
  function Temps(cur: seq<string>, i: nat): seq<string>
    requires i < |cur|
  {
    if i == 0 then [] else Track(Temps(cur, i - 1), cur[i - 1], cur[0])
  }

  /** Round `i` draws a supported algorithm, and neither of its two new
      names is the name it starts from or a directory. */
  predicate RoundNamesOk(fs0: Fs, pl: Plan, cur: seq<string>, out: seq<string>, i: nat)
    requires |pl.algs| > 0 && 1 <= i < |cur| && i < |out|
  {
    AlgAt(pl, i) in Config.CompressionAlgorithms &&
    out[i] != cur[i - 1] && cur[i] != out[i] &&
    !IsDir(fs0, out[i]) && !IsDir(fs0, cur[i])
  }

  /** An `n`-round plan whose every round has clear names, on an input file. */
  predicate NamesOk(fs0: Fs, pl: Plan, cur: seq<string>, out: seq<string>, n: nat)
  {
    PlanNames(pl, cur, out, n) && IsFile(fs0, pl.path) && fs0[pl.path].content != Folder &&
    forall i :: 1 <= i <= n ==> RoundNamesOk(fs0, pl, cur, out, i)
  }

  /** The state of an encode after round `i` of a plan. */
  ghost predicate ChainAt(fs0: Fs, pl: Plan, cur: seq<string>, out: seq<string>, i: nat, st: EncodeState)
    requires |pl.algs| > 0 && IsFile(fs0, pl.path) && i < |cur| && i < |out|
  {
    st.cur == cur[i] && IsFile(st.fs, st.cur) && st.fs[st.cur].content == Wrap(fs0, pl, cur, i) &&
    (forall x :: IsDir(st.fs, x) <==> IsDir(fs0, x)) &&
    st.records == Records(pl, cur, out, i) && st.tempFiles == Temps(cur, i)
  }

  /** One encode round from a file, onto an archive name and then a final
      name that are distinct from the names before them and are not
      directories, writes one archive layer around the file's content at the
      final name, removes the archive name, and creates no directory. */
  lemma EncodeRoundEffect(st: EncodeState, i: nat, alg: string, ext: string, origin: string)
    requires IsFile(st.fs, st.cur) && alg in Config.CompressionAlgorithms
    requires var out := Stem(st.cur) + SuffixOf(alg);
      out != st.cur && !IsDir(st.fs, out) && Stem(out) + ext != out && !IsDir(st.fs, Stem(out) + ext)
    ensures var out := Stem(st.cur) + SuffixOf(alg);
      var next := Stem(out) + ext;
      var r := EncodeRound(st, i, alg, ext, origin);
      r.Ok? && r.value.cur == next && IsFile(r.value.fs, next) &&
      r.value.fs[next].content == Archive(alg, Basename(st.cur), st.fs[st.cur].content) &&
      (forall x :: IsDir(r.value.fs, x) <==> IsDir(st.fs, x)) &&
      r.value.tempFiles == Track(st.tempFiles, st.cur, origin) &&
      r.value.records == st.records[Text.NatToString(i) := RoundRecord(ext, alg, Basename(out), Basename(next))]
  {
    var out := Stem(st.cur) + SuffixOf(alg);
    var next := Stem(out) + ext;
    var c := Archive(alg, Basename(st.cur), st.fs[st.cur].content);
    assert CompressedSuffix(alg) == Some(SuffixOf(alg));
    CompressEffect(st.fs, st.cur, alg);
    var fs1 := st.fs[out := File(c)];
    assert CompressSpec(st.fs, st.cur, alg) == (fs1, Ok(out));
    var fs2 := Move(fs1 - {next}, out, next);
    assert ChangeExtensionSpec(fs1, out, ext) == (fs2, Ok(next));
    NoNewDirs(st.fs, out, c, next);
    var record := RoundRecord(ext, alg, Basename(out), Basename(next));
    assert EncodeRound(st, i, alg, ext, origin) ==
      Ok(EncodeState(fs2, next, Track(st.tempFiles, st.cur, origin), st.records[Text.NatToString(i) := record]));
  }

  /** Writing a file and renaming it over another file creates no directory. */
  lemma NoNewDirs(fs: Fs, out: string, c: Content, next: string)
    requires !IsDir(fs, out) && !IsDir(fs, next) && out != next
    ensures forall x :: IsDir(Move(fs[out := File(c)] - {next}, out, next), x) <==> IsDir(fs, x)
  {
  }

  /** One encode round of a plan with clear names wraps the working content
      in one more layer and moves on to the next name. */
  lemma EncodeRoundChain(fs0: Fs, pl: Plan, cur: seq<string>, out: seq<string>, i: nat, st: EncodeState)
    requires |pl.algs| > 0 && IsFile(fs0, pl.path) && 1 <= i < |cur| && i < |out| && cur[0] == pl.path
    requires NamedStep(pl, cur, out, i) && RoundNamesOk(fs0, pl, cur, out, i)
    requires ChainAt(fs0, pl, cur, out, i - 1, st)
    ensures var r := EncodeRound(st, i, AlgAt(pl, i), ExtAt(pl, i), pl.path);
      r.Ok? && ChainAt(fs0, pl, cur, out, i, r.value)
  {
    var alg, ext := AlgAt(pl, i), ExtAt(pl, i);
    assert Stem(st.cur) + SuffixOf(alg) == out[i] && Stem(out[i]) + ext == cur[i];
    EncodeRoundEffect(st, i, alg, ext, pl.path);
    var st' := EncodeRound(st, i, alg, ext, pl.path).value;
    assert st'.fs[st'.cur].content == Wrap(fs0, pl, cur, i);
    assert st'.records == Records(pl, cur, out, i);
    assert Temps(cur, i) == Track(Temps(cur, i - 1), cur[i - 1], cur[0]);
    assert st'.tempFiles == Temps(cur, i);
  }

  /** The rounds of a plan with clear names all succeed. */
  lemma {:induction false} EncodeFromChain(fs0: Fs, pl: Plan, cur: seq<string>, out: seq<string>, n: nat, i: nat, st: EncodeState)
    requires NamesOk(fs0, pl, cur, out, n) && i <= n && ChainAt(fs0, pl, cur, out, i, st)
    ensures var r := EncodeFrom(st, i + 1, n, pl.algs, pl.algDraw, pl.extDraw, pl.path);
      r.Ok? && ChainAt(fs0, pl, cur, out, n, r.value)
    decreases n - i
  {
    if i < n {
      assert NamedStep(pl, cur, out, i + 1) && RoundNamesOk(fs0, pl, cur, out, i + 1) && cur[0] == pl.path;
      EncodeRoundChain(fs0, pl, cur, out, i + 1, st);
      var st' := EncodeRound(st, i + 1, AlgAt(pl, i + 1), ExtAt(pl, i + 1), pl.path).value;
      EncodeFromChain(fs0, pl, cur, out, n, i + 1, st');
    }
  }

  /** The ledger's keys are "1" .. "n". */
  lemma {:induction false} RecordsKeys(pl: Plan, cur: seq<string>, out: seq<string>, n: nat)
    requires |pl.algs| > 0 && n < |cur| && n < |out|
    ensures Records(pl, cur, out, n).Keys == RoundKeys(n)
  {
    if n > 0 {
      RecordsKeys(pl, cur, out, n - 1);
      assert RoundKeys(n) == RoundKeys(n - 1) + {Text.NatToString(n)};
    }
  }

  /** Record k of the ledger describes round k. */
  lemma {:induction false} RecordsLookup(pl: Plan, cur: seq<string>, out: seq<string>, n: nat, k: nat)
    requires |pl.algs| > 0 && 1 <= k <= n < |cur| && n < |out|
    ensures Text.NatToString(k) in Records(pl, cur, out, n)
    ensures Records(pl, cur, out, n)[Text.NatToString(k)] == RecordOf(pl, cur, out, k)
  {
    assert Records(pl, cur, out, n) ==
      Records(pl, cur, out, n - 1)[Text.NatToString(n) := RecordOf(pl, cur, out, n)];
    if k < n {
      RecordsLookup(pl, cur, out, n - 1, k);
      if Text.NatToString(k) == Text.NatToString(n) {
        Text.NatToStringInjective(k, n);
      }
    }
  }

  /** A record that names an extension and an algorithm. */
  predicate RecordShaped(rec: Json)
  {
    rec.JObj? && "extension" in rec.fields && "algorithm" in rec.fields
  }

  lemma {:induction false} RecordsShaped(pl: Plan, cur: seq<string>, out: seq<string>, n: nat)
    requires |pl.algs| > 0 && n < |cur| && n < |out|
    ensures forall key :: key in Records(pl, cur, out, n) ==> RecordShaped(Records(pl, cur, out, n)[key])
  {
    if n > 0 {
      RecordsShaped(pl, cur, out, n - 1);
    }
  }

  /** The input itself, and any name no later round returns to, stays off
      the cleanup list. */
  lemma {:induction false} TempsExcludes(cur: seq<string>, n: nat, x: string)
    requires n < |cur|
    requires x == cur[0] || forall j :: 1 <= j < n ==> cur[j] != x
    ensures x !in Temps(cur, n)
  {
    if n > 0 {
      TempsExcludes(cur, n - 1, x);
    }
  }

  /** Every intermediate working file other than the input is on the
      cleanup list. */
  lemma {:induction false} TempsIncludes(cur: seq<string>, n: nat, j: nat)
    requires 1 <= j < n < |cur| && cur[j] != cur[0]
    ensures cur[j] in Temps(cur, n)
  {
    if j < n - 1 {
      TempsIncludes(cur, n - 1, j);
    }
  }

  /** A ledger whose metadata carries the four required keys with
      `total_rounds` equal to `n`, and whose rounds are the records "1" ..
      "n" each naming an extension and an algorithm, is valid. */
  lemma LedgerValid(meta: map<string, Json>, records: map<string, Json>, n: nat)
    requires "encryption_time" in meta && "original_filename" in meta && "original_hash" in meta
    requires "total_rounds" in meta && meta["total_rounds"] == JInt(n)
    requires records.Keys == RoundKeys(n)
    requires forall key :: key in records ==> RecordShaped(records[key])
    ensures var book := JObj(map["metadata" := JObj(meta), "rounds" := JObj(records)]);
      ValidatePasswordBook(book) && RoundCount(book) == n
  {
    RoundKeysCount(n);
    var rounds := JObj(records);
    forall k | 1 <= k <= n ensures RecordPresent(rounds, k) {
      assert Text.NatToString(k) in RoundKeys(n);
    }
    assert forall k :: 0 <= k < |RequiredMetadata| ==> RequiredMetadata[k] in meta;
  }

  /** The cleanup after an encode keeps a file that is not on its list. */
  lemma CleanupKeeps(fs: Fs, files: seq<string>, p: string)
    requires IsFile(fs, p) && p !in files
    ensures var fs' := CleanupTemp(fs, files, []);
      IsFile(fs', p) && fs'[p] == fs[p]
  {
    RemoveFilesEffect(fs, files);
  }

  /** The ledger an encode of a plan writes is valid and counts its rounds. */
  lemma EncodeLedger(fs0: Fs, pl: Plan, cur: seq<string>, out: seq<string>, n: nat,
                     originalFilename: string, now: string, digest: Content -> string,
                     final: string, hash: string)
    requires |pl.algs| > 0 && n < |cur| && n < |out|
    ensures var meta := InitialMetadata(fs0, pl.path, n, originalFilename, now, digest)
        ["final_filename" := JStr(final)]["final_hash" := JStr(hash)];
      var book := JObj(map["metadata" := JObj(meta), "rounds" := JObj(Records(pl, cur, out, n))]);
      ValidatePasswordBook(book) && RoundCount(book) == n
  {
    RecordsKeys(pl, cur, out, n);
    RecordsShaped(pl, cur, out, n);
    var meta := InitialMetadata(fs0, pl.path, n, originalFilename, now, digest)
      ["final_filename" := JStr(final)]["final_hash" := JStr(hash)];
    LedgerValid(meta, Records(pl, cur, out, n), n);
  }

  /** A round's record names its extension and its algorithm. */
  lemma RoundRecordFields(ext: string, alg: string, compressed: string, encrypted: string)
    ensures var rec := RoundRecord(ext, alg, compressed, encrypted);
      RecordShaped(rec) && rec.fields["algorithm"] == JStr(alg) && rec.fields["extension"] == JStr(ext)
  {
  }

  /** A successful encode round adds the record of its own round number,
      naming the extension and the algorithm it was given, the algorithm one
      of the five that compress, and keeps the others. */
  lemma EncodeRoundRecords(st: EncodeState, n: nat, alg: string, ext: string, origin: string)
    ensures var r := EncodeRound(st, n, alg, ext, origin);
      r.Ok? ==> (r.value.records.Keys == st.records.Keys + {Text.NatToString(n)} &&
        RecordShaped(r.value.records[Text.NatToString(n)]) &&
        r.value.records[Text.NatToString(n)].fields["algorithm"] == JStr(alg) &&
        r.value.records[Text.NatToString(n)].fields["extension"] == JStr(ext) &&
        alg in Config.CompressionAlgorithms &&
        forall key :: key in st.records && key != Text.NatToString(n) ==> r.value.records[key] == st.records[key])
  {
    var (fs1, r1) := CompressSpec(st.fs, st.cur, alg);
    CompressEffect(st.fs, st.cur, alg);
    if r1.Ok? {
      var temp := Track(st.tempFiles, st.cur, origin);
      var (fs2, r2) := ChangeExtensionSpec(fs1, r1.value, ext);
      if r2.Ok? {
        var record := RoundRecord(ext, alg, Basename(r1.value), Basename(r2.value));
        RoundRecordFields(ext, alg, Basename(r1.value), Basename(r2.value));
        assert EncodeRound(st, n, alg, ext, origin) ==
          Ok(EncodeState(fs2, r2.value, temp, st.records[Text.NatToString(n) := record]));
      } else {
        assert EncodeRound(st, n, alg, ext, origin) == Err((ExtensionFailed(n, r2.error), EncodeState(fs2, st.cur, temp, st.records)));
      }
    } else {
      assert EncodeRound(st, n, alg, ext, origin) == Err((CompressFailed(n, r1.error), st.(fs := fs1)));
    }
  }

  /** No encode round, successful or not, takes the input onto the list of
      stage files to remove. */
  lemma EncodeRoundSparesInput(st: EncodeState, n: nat, alg: string, ext: string, origin: string)
    requires origin !in st.tempFiles
    ensures var r := EncodeRound(st, n, alg, ext, origin);
      origin !in (if r.Ok? then r.value else r.error.1).tempFiles
  {
  }

  /** A record as an encode writes it: its algorithm is a string drawn from
      `algorithms` and one of the five that compress, its extension a string
      from the extension pool. */
  predicate RecordDrawn(rec: Json, algorithms: seq<string>)
  {
    RecordShaped(rec) &&
    rec.fields["algorithm"].JStr? && rec.fields["algorithm"].s in algorithms &&
    rec.fields["algorithm"].s in Config.CompressionAlgorithms &&
    rec.fields["extension"].JStr? && rec.fields["extension"].s in Config.ExtensionPool
  }

  /** Records keyed exactly "1" .. `n`, each as an encode drawing from
      `algorithms` writes it. */
  predicate RecordsUpTo(records: map<string, Json>, n: int, algorithms: seq<string>)
  {
    records.Keys == RoundKeys(if n >= 0 then n else 0) &&
    forall key :: key in records ==> RecordDrawn(records[key], algorithms)
  }

  /** The rounds `n` .. `rounds`, when they succeed, leave the records of
      "1" .. `rounds`; successful or not, they leave the input off the
      cleanup list. */
  predicate EncodeRecordsAll(st: EncodeState, n: nat, rounds: int, algorithms: seq<string>,
                             algDraw: nat -> nat, extDraw: nat -> nat, origin: string)
  {
    var r := EncodeFrom(st, n, rounds, algorithms, algDraw, extDraw, origin);
    (r.Ok? ==> RecordsUpTo(r.value.records, rounds, algorithms) && origin !in r.value.tempFiles) &&
    (r.Err? ==> origin !in r.error.1.tempFiles)
  }

  /** Round `n` of an encode, which is due: its outcome `r` is where the
      encode stops or continues from; a successful round adds record `n`,
      and no outcome lists the input for cleanup. */
  lemma EncodeRecordsStep(st: EncodeState, n: nat, rounds: int, algorithms: seq<string>,
                          algDraw: nat -> nat, extDraw: nat -> nat, origin: string)
    returns (r: Result<EncodeState, (EngineError, EncodeState)>)
    requires 1 <= n <= rounds && RecordsUpTo(st.records, n - 1, algorithms)
    requires origin !in st.tempFiles
    ensures EncodeFrom(st, n, rounds, algorithms, algDraw, extDraw, origin) ==
      if r.Err? then r else EncodeFrom(r.value, n + 1, rounds, algorithms, algDraw, extDraw, origin)
    ensures r.Ok? ==> RecordsUpTo(r.value.records, n, algorithms) && origin !in r.value.tempFiles
    ensures r.Err? ==> origin !in r.error.1.tempFiles
  {
    EncodeFromStep(st, n, rounds, algorithms, algDraw, extDraw, origin);
    if |algorithms| == 0 {
      r := Err((NoAlgorithms(n), st));
    } else {
      var alg := Choose(algorithms, algDraw(n));
      var ext := Choose(Config.ExtensionPool, extDraw(n));
      r := EncodeRound(st, n, alg, ext, origin);
      EncodeRoundRecords(st, n, alg, ext, origin);
      EncodeRoundSparesInput(st, n, alg, ext, origin);
      if r.Ok? {
        RoundKeysStep(n);
      }
    }
  }

  /** Whatever the names, the rounds `n` .. `rounds` of a successful encode
      leave records keyed exactly "1" .. `rounds`, each as an encode writes
      it, and no encode ever lists its input for cleanup. */
  lemma {:induction false} EncodeFromRecords(st: EncodeState, n: nat, rounds: int, algorithms: seq<string>,
                                             algDraw: nat -> nat, extDraw: nat -> nat, origin: string)
    requires 1 <= n <= rounds + 1 && RecordsUpTo(st.records, n - 1, algorithms)
    requires origin !in st.tempFiles
    ensures EncodeRecordsAll(st, n, rounds, algorithms, algDraw, extDraw, origin)
    decreases rounds - n + 1
  {
    if n <= rounds {
      var r := EncodeRecordsStep(st, n, rounds, algorithms, algDraw, extDraw, origin);
      if r.Ok? {
        EncodeFromRecords(r.value, n + 1, rounds, algorithms, algDraw, extDraw, origin);
      }
    }
  }

  /** For every input, the ledger of a successful encode with a
      non-negative round count passes `_validate_password_book` and counts
      those rounds; a negative count runs no round, succeeds, and writes a
      ledger that fails it, since no dict has a negative length. */
  lemma EncodeLedgerValid(fs: Fs, filePath: string, rounds: int, algorithms: Option<seq<string>>,
                          originalFilename: string, now: string, algDraw: nat -> nat, extDraw: nat -> nat,
                          digest: Content -> string)
    ensures var (_, r) := EncodeSpec(fs, filePath, rounds, algorithms, originalFilename, now, algDraw, extDraw, digest);
      rounds >= 0 && r.Ok? ==> ValidatePasswordBook(r.value.1) && RoundCount(r.value.1) == rounds
    ensures var (_, r) := EncodeSpec(fs, filePath, rounds, algorithms, originalFilename, now, algDraw, extDraw, digest);
      rounds < 0 ==> r.Ok? && !ValidatePasswordBook(r.value.1)
  {
    var start := EncodeState(fs, filePath, [], map[]);
    var algs := AlgorithmsOf(algorithms);
    var e := EncodeFrom(start, 1, rounds, algs, algDraw, extDraw, filePath);
    if rounds >= 0 {
      assert RecordsUpTo(start.records, 0, algs);
      EncodeFromRecords(start, 1, rounds, algs, algDraw, extDraw, filePath);
      if e.Ok? {
        var st := e.value;
        var meta := InitialMetadata(fs, filePath, rounds, originalFilename, now, digest)
          ["final_filename" := JStr(Basename(st.cur))]["final_hash" := JStr(FileHash(st.fs, st.cur, digest))];
        assert forall key :: key in st.records ==> RecordShaped(st.records[key]);
        LedgerValid(meta, st.records, rounds);
      }
    }
  }

  /** Every record in the ledger of a successful encode names an algorithm
      drawn from the list and one with a suffix of its own, so a later
      decode of that ledger never falls back to the ".zip" default. */
  lemma EncodeLedgerRecords(fs: Fs, filePath: string, rounds: int, algorithms: Option<seq<string>>,
                            originalFilename: string, now: string, algDraw: nat -> nat, extDraw: nat -> nat,
                            digest: Content -> string)
    ensures var (_, r) := EncodeSpec(fs, filePath, rounds, algorithms, originalFilename, now, algDraw, extDraw, digest);
      r.Ok? ==> (r.value.1.JObj? && "rounds" in r.value.1.fields && r.value.1.fields["rounds"].JObj? &&
        forall key :: key in r.value.1.fields["rounds"].fields ==>
          (RecordDrawn(r.value.1.fields["rounds"].fields[key], AlgorithmsOf(algorithms)) &&
           CompressedSuffix(r.value.1.fields["rounds"].fields[key].fields["algorithm"].s).Some? &&
           CompressedExtension(r.value.1.fields["rounds"].fields[key].fields["algorithm"]) ==
             CompressedSuffix(r.value.1.fields["rounds"].fields[key].fields["algorithm"].s)))
  {
    var start := EncodeState(fs, filePath, [], map[]);
    var algs := AlgorithmsOf(algorithms);
    var e := EncodeFrom(start, 1, rounds, algs, algDraw, extDraw, filePath);
    if rounds >= 0 {
      assert RecordsUpTo(start.records, 0, algs);
      EncodeFromRecords(start, 1, rounds, algs, algDraw, extDraw, filePath);
    } else {
      assert e == Ok(start);
    }
  }

  /** An encode never deletes its input: the input is never on the list of
      stage files the encode removes, on success or on failure, so the
      cleanup leaves it as the rounds left it. */
  lemma EncodeSparesInput(fs: Fs, filePath: string, rounds: int, algorithms: Option<seq<string>>,
                          originalFilename: string, now: string, algDraw: nat -> nat, extDraw: nat -> nat,
                          digest: Content -> string)
    ensures var e := EncodeFrom(EncodeState(fs, filePath, [], map[]), 1, rounds, AlgorithmsOf(algorithms),
                                algDraw, extDraw, filePath);
      var last := if e.Ok? then e.value else e.error.1;
      var (fs', _) := EncodeSpec(fs, filePath, rounds, algorithms, originalFilename, now, algDraw, extDraw, digest);
      filePath !in last.tempFiles &&
      (filePath in last.fs ==> filePath in fs' && fs'[filePath] == last.fs[filePath])
  {
    var start := EncodeState(fs, filePath, [], map[]);
    var algs := AlgorithmsOf(algorithms);
    var e := EncodeFrom(start, 1, rounds, algs, algDraw, extDraw, filePath);
    if rounds >= 0 {
      assert RecordsUpTo(start.records, 0, algs);
      EncodeFromRecords(start, 1, rounds, algs, algDraw, extDraw, filePath);
    } else {
      assert e == Ok(start);
    }
    var last := if e.Ok? then e.value else e.error.1;
    RemoveFilesEffect(last.fs, last.tempFiles);
  }

  /** Before the first round an encode is at the start of its chain. */
  lemma ChainStart(fs0: Fs, pl: Plan, cur: seq<string>, out: seq<string>, n: nat)
    requires NamesOk(fs0, pl, cur, out, n)
    ensures ChainAt(fs0, pl, cur, out, 0, EncodeState(fs0, pl.path, [], map[]))
  {
  }

  /** All the rounds of a plan with clear names, from the start of the chain. */
  lemma EncodeRuns(fs0: Fs, pl: Plan, cur: seq<string>, out: seq<string>, n: nat, st: EncodeState)
    requires NamesOk(fs0, pl, cur, out, n) && ChainAt(fs0, pl, cur, out, 0, st)
    ensures var r := EncodeFrom(st, 1, n, pl.algs, pl.algDraw, pl.extDraw, pl.path);
      r.Ok? && ChainAt(fs0, pl, cur, out, n, r.value)
  {
    EncodeFromChain(fs0, pl, cur, out, n, 0, st);
  }

  /** Encoding with a plan whose names are clear, and whose final name is
      none of the intermediate ones, succeeds: the final file holds the
      input wrapped in one layer per round, and the ledger is valid and
      records each round. */
  lemma EncodeChain(fs0: Fs, pl: Plan, cur: seq<string>, out: seq<string>, n: nat,
                    algorithms: Option<seq<string>>, originalFilename: string, now: string,
                    digest: Content -> string)
    requires NamesOk(fs0, pl, cur, out, n) && AlgorithmsOf(algorithms) == pl.algs
    requires forall j :: 1 <= j < n ==> cur[j] != cur[n]
    ensures var (fs', r) := EncodeSpec(fs0, pl.path, n, algorithms, originalFilename, now, pl.algDraw, pl.extDraw, digest);
      r.Ok? && r.value.0 == cur[n] &&
      IsFile(fs', cur[n]) && fs'[cur[n]].content == Wrap(fs0, pl, cur, n) &&
      ValidatePasswordBook(r.value.1) && RoundCount(r.value.1) == n &&
      r.value.1.fields["rounds"] == JObj(Records(pl, cur, out, n))
  {
    var start := EncodeState(fs0, pl.path, [], map[]);
    ChainStart(fs0, pl, cur, out, n);
    EncodeRuns(fs0, pl, cur, out, n, start);
    var st := EncodeFrom(start, 1, n, pl.algs, pl.algDraw, pl.extDraw, pl.path).value;
    TempsExcludes(cur, n, cur[n]);
    CleanupKeeps(st.fs, st.tempFiles, st.cur);
    EncodeLedger(fs0, pl, cur, out, n, originalFilename, now, digest,
                 Basename(st.cur), FileHash(st.fs, st.cur, digest));
  }

  // ---------------------------------------------------------------------
  // Peeling the layers off again

  /** `c` is `n` archive layers around `core`, layer k written by the
      supported algorithm that the ledger's record k names, with an
      extension that is a string. */
  predicate Peels(c: Content, rounds: Json, n: nat, core: Content)
    decreases n
  {
    if n == 0 then c == core
    else
      var rec := DictGet(rounds, Text.NatToString(n));
      DictGet(rec, "extension").JStr? && DictGet(rec, "algorithm").JStr? &&
      DictGet(rec, "algorithm").s in Config.CompressionAlgorithms &&
      c.Archive? && c.alg == DictGet(rec, "algorithm").s && c.inner != Folder &&
      Peels(c.inner, rounds, n - 1, core)
  }

  /** No layers around `core` are `core` itself. */
  lemma PeelsNone(c: Content, rounds: Json, core: Content)
    requires Peels(c, rounds, 0, core)
    ensures c == core
  {
  }

  lemma PeelsCore(core: Content, rounds: Json)
    ensures Peels(core, rounds, 0, core)
  {
  }

  /** What a decode round needs of the filesystem: restaging brings the
      current file under its compressed-stage name unchanged (no other file
      sits at the corrected or the compressed name), no file holds the
      extraction directory's name, and for gzip the output name is free of
      directories, distinct from the archive and not empty. */
  predicate RoundClear(st: Progress, ext: string, alg: string, stamp: nat)
  {
    st.cur in st.fs && CompressedSuffix(alg).Some? &&
    var (fs1, cur1) := Restage(st.fs, st.cur, ext, CompressedSuffix(alg).value);
    fs1[cur1] == st.fs[st.cur] && !IsFile(fs1, ExtractDir(cur1, stamp)) &&
    (alg == "gzip" ==> Stem(cur1) != cur1 && Stem(cur1) != "" && !IsDir(fs1, Stem(cur1)))
  }

  /** What the final stage needs: a result inside an extraction directory
      has a target that is not a directory and is not the result itself. */
  predicate FinishClear(st: Progress)
  {
    Text.Contains(st.cur, "extracted_") ==>
      !IsDir(st.fs, MoveTarget(st.cur)) && MoveTarget(st.cur) != st.cur
  }

  /** `sts[k]` is the state before decode round `k` and `sts[k - 1]` the one
      after it: round `k` finds the filesystem clear, and when it succeeds it
      leaves `sts[k - 1]`. */
  predicate RoundStaged(sts: seq<Progress>, rounds: Json, k: nat, stamp: nat -> nat, origin: string)
    requires 1 <= k < |sts|
  {
    var rec := DictGet(rounds, Text.NatToString(k));
    var r := DecodeRound(sts[k], k, rec, stamp(k), origin);
    RoundClear(sts[k], StrValue(DictGet(rec, "extension")), StrValue(DictGet(rec, "algorithm")), stamp(k)) &&
    (r.Ok? ==> r.value == sts[k - 1])
  }

  /** The states a decode of `|sts| - 1` rounds passes through, last to
      first, each round and then the final stage finding the filesystem
      clear. */
  predicate DecodeStaged(sts: seq<Progress>, rounds: Json, stamp: nat -> nat, origin: string)
  {
    |sts| > 0 && FinishClear(sts[0]) && RoundsStaged(sts, rounds, stamp, origin)
  }

  predicate RoundsStaged(sts: seq<Progress>, rounds: Json, stamp: nat -> nat, origin: string)
  {
    forall k :: 1 <= k < |sts| ==> RoundStaged(sts, rounds, k, stamp, origin)
  }

  /** Round `k` of the decode hands the remaining rounds `sts[k - 1]`: the
      rounds from `sts[k]` do what the rounds after it do from `sts[k - 1]`. */
  predicate RoundLinks(sts: seq<Progress>, rounds: Json, k: nat, stamp: nat -> nat, origin: string)
    requires 1 <= k < |sts|
  {
    DecodeFrom(sts[k], rounds, k, stamp, origin) == DecodeFrom(sts[k - 1], rounds, k - 1, stamp, origin)
  }

  /** Rounds `k`, `k - 1`, .., 1 each run from one state of `sts` to the
      next. */
  predicate AllLinked(sts: seq<Progress>, rounds: Json, k: nat, stamp: nat -> nat, origin: string)
    requires k < |sts|
  {
    forall j :: 1 <= j <= k ==> RoundLinks(sts, rounds, j, stamp, origin)
  }

  /** Extracting a restaged archive, clear of the extraction directory,
      continues from its member. */
  lemma ExtractStagePeels(st: Progress, n: nat, fs1: Fs, cur1: string, alg: string, stamp: nat, origin: string)
    requires IsFile(fs1, cur1) && alg in Config.CompressionAlgorithms
    requires var c := fs1[cur1].content; c.Archive? && c.alg == alg && c.inner != Folder
    requires !IsFile(fs1, ExtractDir(cur1, stamp))
    requires alg == "gzip" ==> Stem(cur1) != cur1 && Stem(cur1) != "" && !IsDir(fs1, Stem(cur1))
    ensures var r := ExtractStage(st, n, fs1, cur1, alg, stamp, origin);
      r.Ok? && IsFile(r.value.fs, r.value.cur) && r.value.fs[r.value.cur].content == fs1[cur1].content.inner
  {
    var c := fs1[cur1].content;
    ExtractArchive(fs1, cur1, alg, stamp, c.entry, c.inner);
    var (fs2, r) := ExtractSpec(fs1, cur1, alg, stamp);
    assert r.Ok? && IsFile(fs2, r.value) && fs2[r.value].content == c.inner;
    var temp := Track(st.tempFiles, cur1, origin);
    assert ExtractStage(st, n, fs1, cur1, alg, stamp, origin) == Ok(Progress(fs2, r.value, Track(temp, cur1, origin), st.tempDirs));
  }

  /** A decode round on a clear filesystem removes exactly one layer. */
  lemma DecodeRoundPeels(st: Progress, n: nat, rec: Json, stamp: nat, origin: string)
    requires IsFile(st.fs, st.cur)
    requires DictGet(rec, "extension").JStr? && DictGet(rec, "algorithm").JStr?
    requires var alg := DictGet(rec, "algorithm").s; var c := st.fs[st.cur].content;
      alg in Config.CompressionAlgorithms && c.Archive? && c.alg == alg && c.inner != Folder
    requires RoundClear(st, DictGet(rec, "extension").s, DictGet(rec, "algorithm").s, stamp)
    ensures var r := DecodeRound(st, n, rec, stamp, origin);
      r.Ok? && IsFile(r.value.fs, r.value.cur) && r.value.fs[r.value.cur].content == st.fs[st.cur].content.inner
  {
    var extJ, algJ := DictGet(rec, "extension"), DictGet(rec, "algorithm");
    var ext, alg := extJ.s, algJ.s;
    assert PyGet(rec, "extension") == Some(extJ) && PyGet(rec, "algorithm") == Some(algJ);
    CompressedExtensionAgrees(alg);
    var cext := CompressedSuffix(alg).value;
    assert CompressedExtension(algJ) == Some(cext) && StrValue(algJ) == alg;
    var (fs1, cur1) := Restage(st.fs, st.cur, ext, cext);
    assert DecodeRound(st, n, rec, stamp, origin) == ExtractStage(st, n, fs1, cur1, alg, stamp, origin);
    ExtractStagePeels(st, n, fs1, cur1, alg, stamp, origin);
  }

  /** Round `k` on a clear filesystem, from a file with `k` layers, runs to
      the state `next` it is staged to reach, which holds the file with one
      layer less. */
  lemma PeelRound(st: Progress, next: Progress, rounds: Json, k: nat, stamp: nat -> nat, origin: string, core: Content)
    requires k >= 1 && IsFile(st.fs, st.cur) && Peels(st.fs[st.cur].content, rounds, k, core)
    requires var rec := DictGet(rounds, Text.NatToString(k));
      RoundClear(st, StrValue(DictGet(rec, "extension")), StrValue(DictGet(rec, "algorithm")), stamp(k))
    requires var r := DecodeRound(st, k, DictGet(rounds, Text.NatToString(k)), stamp(k), origin);
      r.Ok? ==> r.value == next
    ensures DecodeFrom(st, rounds, k, stamp, origin) == DecodeFrom(next, rounds, k - 1, stamp, origin)
    ensures IsFile(next.fs, next.cur) && Peels(next.fs[next.cur].content, rounds, k - 1, core)
  {
    var rec := DictGet(rounds, Text.NatToString(k));
    var c := st.fs[st.cur].content;
    var ext, alg := DictGet(rec, "extension"), DictGet(rec, "algorithm");
    assert ext.JStr? && alg.JStr? && alg.s in Config.CompressionAlgorithms;
    assert c.Archive? && c.alg == alg.s && c.inner != Folder && Peels(c.inner, rounds, k - 1, core);
    assert StrValue(ext) == ext.s && StrValue(alg) == alg.s;
    DecodeRoundPeels(st, k, rec, stamp(k), origin);
    assert PyGet(rounds, Text.NatToString(k)) == Some(rec);
    assert DecodeRound(st, k, rec, stamp(k), origin) == Ok(next);
  }

  /** One more linked round extends the linked prefix. */
  lemma LinkExtend(sts: seq<Progress>, rounds: Json, k: nat, stamp: nat -> nat, origin: string)
    requires 1 <= k < |sts| && RoundLinks(sts, rounds, k, stamp, origin)
    ensures AllLinked(sts, rounds, k - 1, stamp, origin) ==> AllLinked(sts, rounds, k, stamp, origin)
  {
    if AllLinked(sts, rounds, k - 1, stamp, origin) {
      forall j | 1 <= j <= k
        ensures RoundLinks(sts, rounds, j, stamp, origin)
      {
        if j < k {
          assert RoundLinks(sts, rounds, j, stamp, origin);
        }
      }
    }
  }

  /** Round `k` on a clear filesystem, from a file with `k` layers, runs to
      `sts[k - 1]`, which holds the file with one layer less. */
  lemma StepPeels(sts: seq<Progress>, rounds: Json, k: nat, stamp: nat -> nat, origin: string, core: Content)
    requires 1 <= k < |sts| && RoundsStaged(sts, rounds, stamp, origin)
    requires IsFile(sts[k].fs, sts[k].cur) && Peels(sts[k].fs[sts[k].cur].content, rounds, k, core)
    ensures AllLinked(sts, rounds, k - 1, stamp, origin) ==> AllLinked(sts, rounds, k, stamp, origin)
    ensures IsFile(sts[k - 1].fs, sts[k - 1].cur) && Peels(sts[k - 1].fs[sts[k - 1].cur].content, rounds, k - 1, core)
  {
    assert RoundStaged(sts, rounds, k, stamp, origin);
    PeelRound(sts[k], sts[k - 1], rounds, k, stamp, origin, core);
    LinkExtend(sts, rounds, k, stamp, origin);
  }

  /** On a clear filesystem every round from a file with `k` layers runs,
      and the state before the final stage holds the core. */
  lemma {:induction false} StagesPeel(sts: seq<Progress>, rounds: Json, k: nat, stamp: nat -> nat, origin: string, core: Content)
    requires k < |sts| && RoundsStaged(sts, rounds, stamp, origin)
    requires IsFile(sts[k].fs, sts[k].cur) && Peels(sts[k].fs[sts[k].cur].content, rounds, k, core)
    ensures AllLinked(sts, rounds, k, stamp, origin)
    ensures IsFile(sts[0].fs, sts[0].cur) && sts[0].fs[sts[0].cur].content == core
  {
    if k == 0 {
      PeelsNone(sts[0].fs[sts[0].cur].content, rounds, core);
    } else {
      StepPeels(sts, rounds, k, stamp, origin, core);
      StagesPeel(sts, rounds, k - 1, stamp, origin, core);
    }
  }

  /** A linked prefix links each of its rounds. */
  lemma LinkStep(sts: seq<Progress>, rounds: Json, k: nat, m: nat, stamp: nat -> nat, origin: string)
    requires 1 <= k <= m < |sts| && AllLinked(sts, rounds, m, stamp, origin)
    ensures DecodeFrom(sts[k], rounds, k, stamp, origin) == DecodeFrom(sts[k - 1], rounds, k - 1, stamp, origin)
  {
    assert RoundLinks(sts, rounds, k, stamp, origin);
  }

  /** Rounds that each run to the next state compose: rounds `k`, .., 1
      from `sts[k]` do what no rounds from `sts[0]` do. */
  lemma {:induction false} LinksRun(sts: seq<Progress>, rounds: Json, k: nat, m: nat, stamp: nat -> nat, origin: string)
    requires 1 <= k <= m < |sts| && AllLinked(sts, rounds, m, stamp, origin)
    ensures DecodeFrom(sts[k], rounds, k, stamp, origin) == DecodeFrom(sts[0], rounds, 0, stamp, origin)
  {
    LinkStep(sts, rounds, k, m, stamp, origin);
    if k > 1 {
      LinksRun(sts, rounds, k - 1, m, stamp, origin);
    }
  }

  /** The final stage keeps the content of a result that needs no move or
      whose move is clear. */
  lemma FinishKeeps(st: Progress)
    requires IsFile(st.fs, st.cur) && FinishClear(st)
    ensures var r := Finish(st);
      r.Ok? && IsFile(r.value.0, r.value.1) && r.value.0[r.value.1] == st.fs[st.cur]
  {
  }

  /** Decoding a file that holds `core` under the ledger's layers, on a
      filesystem clear for every round, gives back `core`. */
  lemma DecodeRecovers(fs: Fs, filePath: string, book: Json, stamp: nat -> nat, core: Content, sts: seq<Progress>)
    requires ValidatePasswordBook(book) && IsFile(fs, filePath)
    requires Peels(fs[filePath].content, book.fields["rounds"], RoundCount(book), core)
    requires |sts| == RoundCount(book) + 1 && sts[RoundCount(book)] == Progress(fs, filePath, [], [])
    requires DecodeStaged(sts, book.fields["rounds"], stamp, filePath)
    ensures var (fs', r) := DecodeSpec(fs, filePath, book, stamp);
      r.Ok? && IsFile(fs', r.value) && fs'[r.value].content == core
  {
    var rounds, n := book.fields["rounds"], RoundCount(book);
    StagesPeel(sts, rounds, n, stamp, filePath, core);
    if n > 0 {
      LinksRun(sts, rounds, n, n, stamp, filePath);
    }
    assert DecodeFrom(sts[0], rounds, 0, stamp, filePath) == Ok(sts[0]);
    FinishKeeps(sts[0]);
  }

  /** Round `k` of the plan writes a layer of a supported algorithm, and
      record `k` of `rounds` describes the round. */
  predicate LayerAt(pl: Plan, cur: seq<string>, out: seq<string>, rounds: Json, k: nat)
    requires |pl.algs| > 0 && k < |cur| && k < |out|
  {
    var rec := DictGet(rounds, Text.NatToString(k));
    AlgAt(pl, k) in Config.CompressionAlgorithms &&
    DictGet(rec, "algorithm") == JStr(AlgAt(pl, k)) && DictGet(rec, "extension") == JStr(ExtAt(pl, k))
  }

  /** The first `m` rounds of the plan wrap a file that is not a directory,
      each as record `k` of `rounds` describes. */
  predicate LayersAt(fs0: Fs, pl: Plan, cur: seq<string>, out: seq<string>, rounds: Json, m: nat)
  {
    |pl.algs| > 0 && m < |cur| && m < |out| && IsFile(fs0, pl.path) && fs0[pl.path].content != Folder &&
    forall k :: 1 <= k <= m ==> LayerAt(pl, cur, out, rounds, k)
  }

  /** A round's record names its extension and its algorithm. */
  lemma RecordFields(ext: string, alg: string, compressed: string, encrypted: string)
    ensures DictGet(RoundRecord(ext, alg, compressed, encrypted), "algorithm") == JStr(alg)
    ensures DictGet(RoundRecord(ext, alg, compressed, encrypted), "extension") == JStr(ext)
  {
    assert "algorithm" != "extension" by { assert "algorithm"[0] != "extension"[0]; }
  }

  /** The ledger an encode writes describes round `k`. */
  lemma LedgerLayer(fs0: Fs, pl: Plan, cur: seq<string>, out: seq<string>, n: nat, k: nat)
    requires NamesOk(fs0, pl, cur, out, n) && 1 <= k <= n
    ensures LayerAt(pl, cur, out, JObj(Records(pl, cur, out, n)), k)
  {
    assert RoundNamesOk(fs0, pl, cur, out, k);
    RecordsLookup(pl, cur, out, n, k);
    var rec := RoundRecord(ExtAt(pl, k), AlgAt(pl, k), Basename(out[k]), Basename(cur[k]));
    assert DictGet(JObj(Records(pl, cur, out, n)), Text.NatToString(k)) == rec;
    RecordFields(ExtAt(pl, k), AlgAt(pl, k), Basename(out[k]), Basename(cur[k]));
  }

  /** The ledger an encode writes describes every round. */
  lemma LedgerLayers(fs0: Fs, pl: Plan, cur: seq<string>, out: seq<string>, n: nat)
    requires NamesOk(fs0, pl, cur, out, n)
    ensures LayersAt(fs0, pl, cur, out, JObj(Records(pl, cur, out, n)), n)
  {
    forall k | 1 <= k <= n
      ensures LayerAt(pl, cur, out, JObj(Records(pl, cur, out, n)), k)
    {
      LedgerLayer(fs0, pl, cur, out, n, k);
    }
  }

  /** A layer written by round `k` is the layer record `k` describes. */
  lemma WrapStep(fs0: Fs, pl: Plan, cur: seq<string>, out: seq<string>, rounds: Json, k: nat, m: nat)
    requires LayersAt(fs0, pl, cur, out, rounds, m) && 1 <= k <= m
    requires Peels(Wrap(fs0, pl, cur, k - 1), rounds, k - 1, fs0[pl.path].content)
    ensures Peels(Wrap(fs0, pl, cur, k), rounds, k, fs0[pl.path].content)
  {
    assert LayerAt(pl, cur, out, rounds, k);
    assert Wrap(fs0, pl, cur, k) == Archive(AlgAt(pl, k), Basename(cur[k - 1]), Wrap(fs0, pl, cur, k - 1));
    assert Wrap(fs0, pl, cur, k - 1) != Folder;
  }

  /** The layers an encode wraps are the layers its ledger describes. */
  lemma {:induction false} WrapPeels(fs0: Fs, pl: Plan, cur: seq<string>, out: seq<string>, rounds: Json, k: nat, m: nat)
    requires LayersAt(fs0, pl, cur, out, rounds, m) && k <= m
    ensures Peels(Wrap(fs0, pl, cur, k), rounds, k, fs0[pl.path].content)
  {
    if k == 0 {
      assert Wrap(fs0, pl, cur, 0) == fs0[pl.path].content;
      PeelsCore(fs0[pl.path].content, rounds);
    } else {
      WrapPeels(fs0, pl, cur, out, rounds, k - 1, m);
      WrapStep(fs0, pl, cur, out, rounds, k, m);
    }
  }

  /** Encoding and then decoding the result with the ledger the encode
      wrote gives back the input's content, when the encode's names are
      clear and the decode, passing through `sts`, finds the filesystem
      clear. */
  lemma RoundTrip(fs0: Fs, pl: Plan, cur: seq<string>, out: seq<string>, n: nat,
                  algorithms: Option<seq<string>>, originalFilename: string, now: string,
                  digest: Content -> string, stamp: nat -> nat, sts: seq<Progress>)
    requires NamesOk(fs0, pl, cur, out, n) && AlgorithmsOf(algorithms) == pl.algs
    requires forall j :: 1 <= j < n ==> cur[j] != cur[n]
    requires |sts| == n + 1 &&
      sts[n] == Progress(EncodeSpec(fs0, pl.path, n, algorithms, originalFilename, now, pl.algDraw, pl.extDraw, digest).0, cur[n], [], [])
    requires DecodeStaged(sts, JObj(Records(pl, cur, out, n)), stamp, cur[n])
    ensures var (fs1, r) := EncodeSpec(fs0, pl.path, n, algorithms, originalFilename, now, pl.algDraw, pl.extDraw, digest);
      r.Ok? &&
      var (fs2, d) := DecodeSpec(fs1, r.value.0, r.value.1, stamp);
      d.Ok? && IsFile(fs2, d.value) && fs2[d.value].content == fs0[pl.path].content
  {
    EncodeChain(fs0, pl, cur, out, n, algorithms, originalFilename, now, digest);
    var (fs1, r) := EncodeSpec(fs0, pl.path, n, algorithms, originalFilename, now, pl.algDraw, pl.extDraw, digest);
    LedgerLayers(fs0, pl, cur, out, n);
    WrapPeels(fs0, pl, cur, out, JObj(Records(pl, cur, out, n)), n, n);
    DecodeRecovers(fs1, cur[n], r.value.1, stamp, fs0[pl.path].content, sts);
  }
}
