/** The ways the encode and decode chains lose a file, each a case that
    the round-trip theorem's naming conditions exclude. Every one of them
    arises from the overlap between the cosmetic extension pool and the
    compressed-stage extensions. */
module Failures {
  import opened Wrappers
  import opened Paths
  import opened Files
  import opened Json
  import opened EncryptionEngine
  import opened RoundTrip
  import Text
  import Config

  /** The algorithms whose compressed extension has a single part. */
  predicate SingleSuffix(alg: string)
  {
    alg == "zip" || alg == "tar" || alg == "gzip"
  }

  lemma SingleSuffixSimple(alg: string)
    requires SingleSuffix(alg)
    ensures CompressedSuffix(alg).Some? && SimpleExt(CompressedSuffix(alg).value)
  {
  }

  /** Every cosmetic extension is a dot followed by dot-free characters. */
  lemma PoolSimple()
    ensures forall e :: e in Config.ExtensionPool ==> SimpleExt(e)
  {
  }

  /** The cosmetic pool shares with the compressed-stage extensions exactly
      ".zip", ".tar" and ".gz". */
  lemma PoolOverlap()
    ensures forall e :: e in Config.ExtensionPool ==>
      ((exists alg :: alg in Config.CompressionAlgorithms && CompressedSuffix(alg) == Some(e)) <==>
        e in {".zip", ".tar", ".gz"})
  {
    forall e | e in Config.ExtensionPool
      ensures (exists alg :: alg in Config.CompressionAlgorithms && CompressedSuffix(alg) == Some(e)) ==>
        e in {".zip", ".tar", ".gz"}
    {
      if exists alg :: alg in Config.CompressionAlgorithms && CompressedSuffix(alg) == Some(e) {
        var alg :| alg in Config.CompressionAlgorithms && CompressedSuffix(alg) == Some(e);
        assert alg in Config.CompressionAlgorithms;
      }
    }
    assert CompressedSuffix("zip") == Some(".zip");
    assert CompressedSuffix("tar") == Some(".tar");
    assert CompressedSuffix("gzip") == Some(".gz");
  }

  // ---------------------------------------------------------------------
  // (a) A cosmetic extension equal to the compressed one

  /** A round on a well-named file whose cosmetic extension is the
      algorithm's own compressed extension renames the archive onto itself:
      the rename removes the archive and the round fails. */
  lemma OwnExtensionFails(st: EncodeState, n: nat, alg: string, origin: string)
    requires IsFile(st.fs, st.cur) && WellNamed(st.cur) && SingleSuffix(alg)
    requires var out := Stem(st.cur) + SuffixOf(alg); out != st.cur && !IsDir(st.fs, out)
    ensures var out := Stem(st.cur) + SuffixOf(alg);
      var r := EncodeRound(st, n, alg, SuffixOf(alg), origin);
      r.Err? && r.error.0 == ExtensionFailed(n, RenameRaised(out)) && out !in r.error.1.fs
  {
    var suffix := SuffixOf(alg);
    var out := Stem(st.cur) + suffix;
    SingleSuffixSimple(alg);
    StemWellNamed(st.cur);
    SplitExtAppend(Stem(st.cur), suffix);
    assert Stem(out) + suffix == out;
    CompressEffect(st.fs, st.cur, alg);
    var fs1 := st.fs[out := File(Archive(alg, Basename(st.cur), st.fs[st.cur].content))];
    assert CompressSpec(st.fs, st.cur, alg) == (fs1, Ok(out));
    ChangeExtensionFails(fs1, out, suffix);
    assert ChangeExtensionSpec(fs1, out, suffix) == (fs1 - {out}, Err(RenameRaised(out)));
  }

  // ---------------------------------------------------------------------
  // (b) A working name that already carries the compressed extension

  /** When the working file already ends in the algorithm's compressed
      extension, compressing writes the archive over its own input: what the
      round then renames holds nothing of the input's content. */
  lemma OwnInputOverwritten(st: EncodeState, n: nat, alg: string, ext: string, origin: string, b: string)
    requires WellNamed(b) && SingleSuffix(alg) && st.cur == b + SuffixOf(alg) && IsFile(st.fs, st.cur)
    requires Stem(st.cur) + ext != st.cur && !IsDir(st.fs, Stem(st.cur) + ext)
    ensures var lost := if alg == "gzip" then Archive(alg, Basename(st.cur), Plain([]))
                        else SelfArchive(alg, Basename(st.cur));
      var r := EncodeRound(st, n, alg, ext, origin);
      r.Ok? && r.value.cur == Stem(st.cur) + ext && r.value.fs[r.value.cur] == File(lost)
  {
    SingleSuffixSimple(alg);
    SplitExtAppend(b, SuffixOf(alg));
    var lost := if alg == "gzip" then Archive(alg, Basename(st.cur), Plain([]))
                else SelfArchive(alg, Basename(st.cur));
    var fs1 := st.fs[st.cur := File(lost)];
    assert CompressSpec(st.fs, st.cur, alg) == (fs1, Ok(st.cur));
    var target := Stem(st.cur) + ext;
    assert ChangeExtensionSpec(fs1, st.cur, ext) == (Move(fs1 - {target}, st.cur, target), Ok(target));
  }

  /** The lost content is not the input wrapped in a layer, whatever the
      input held, unless it already held what the overwrite leaves. */
  lemma OverwriteLoses(alg: string, entry: string, c: Content)
    requires SingleSuffix(alg) && (alg == "gzip" ==> c != Plain([])) && (alg == "zip" ==> c != Garbled)
    ensures (if alg == "gzip" then Archive(alg, entry, Plain([])) else SelfArchive(alg, entry))
      != Archive(alg, entry, c)
  {
  }

  // ---------------------------------------------------------------------
  // (c) A later round returning to an earlier working name

  /** Two consecutive rounds that draw the same single-part algorithm and
      the same cosmetic extension walk through the same two names. */
  lemma RepeatedDrawSameName(pl: Plan, cur: seq<string>, out: seq<string>, n: nat, i: nat)
    requires PlanNames(pl, cur, out, n) && 1 <= i < n && WellNamed(cur[i - 1])
    requires SingleSuffix(AlgAt(pl, i)) && AlgAt(pl, i + 1) == AlgAt(pl, i) && ExtAt(pl, i + 1) == ExtAt(pl, i)
    ensures out[i + 1] == out[i] && cur[i + 1] == cur[i]
  {
    assert NamedStep(pl, cur, out, i) && NamedStep(pl, cur, out, i + 1);
    var s, e := SuffixOf(AlgAt(pl, i)), ExtAt(pl, i);
    SingleSuffixSimple(AlgAt(pl, i));
    PoolSimple();
    StemWellNamed(cur[i - 1]);
    SplitExtAppend(Stem(cur[i - 1]), s);
    assert Stem(out[i]) + s == out[i];
    StemWellNamed(out[i]);
    SplitExtAppend(Stem(out[i]), e);
    assert Stem(cur[i]) == Stem(out[i]);
  }

  /** When the final working name was also an earlier one, the encode
      reports success yet its cleanup removes the final file. */
  lemma EncodeLosesFinal(fs0: Fs, pl: Plan, cur: seq<string>, out: seq<string>, n: nat, j: nat,
                         algorithms: Option<seq<string>>, originalFilename: string, now: string,
                         digest: Content -> string)
    requires NamesOk(fs0, pl, cur, out, n) && AlgorithmsOf(algorithms) == pl.algs
    requires 1 <= j < n && cur[j] == cur[n] && cur[n] != pl.path
    ensures var (fs', r) := EncodeSpec(fs0, pl.path, n, algorithms, originalFilename, now, pl.algDraw, pl.extDraw, digest);
      r.Ok? && r.value.0 == cur[n] && !IsFile(fs', cur[n])
  {
    var start := EncodeState(fs0, pl.path, [], map[]);
    ChainStart(fs0, pl, cur, out, n);
    EncodeRuns(fs0, pl, cur, out, n, start);
    var st := EncodeFrom(start, 1, n, pl.algs, pl.algDraw, pl.extDraw, pl.path).value;
    TempsIncludes(cur, n, j);
    RemoveFilesEffect(st.fs, st.tempFiles);
    assert RemoveDirs(RemoveFiles(st.fs, st.tempFiles), []) == RemoveFiles(st.fs, st.tempFiles);
  }

  // ---------------------------------------------------------------------
  // Decode: the compressed-stage name already taken

  /** Restaging moves the current file, unchanged, to its compressed-stage
      name when neither the corrected nor the compressed name is taken. */
  lemma RestageKeeps(fs: Fs, cur: string, ext: string, cext: string)
    requires cur in fs && (Ext(cur) == ext || Stem(cur) + ext !in fs)
    requires Stem(cur) + cext !in fs
    ensures var (fs1, cur1) := Restage(fs, cur, ext, cext);
      cur1 == Stem(cur) + cext && fs1[cur1] == fs[cur]
  {
  }

  /** When a file already holds the compressed-stage name, restaging takes
      it in place of the current file, whatever that file holds. */
  lemma RestageTakesLeftover(fs: Fs, cur: string, ext: string, cext: string)
    requires cur in fs && (Ext(cur) == ext || Stem(cur) + ext !in fs)
    requires Stem(cur) + cext in fs
    ensures Restage(fs, cur, ext, cext) == (fs, Stem(cur) + cext)
  {
  }

  /** Round 1 with tar.gz and round 2 with gzip: both rounds compress to the
      same name, the gzip round's decode leaves its stage file there and
      writes its output one extension shorter, and the tar.gz round's decode
      then looks for its stage file exactly there, so by
      `RestageTakesLeftover` it extracts the gzip stage file instead. */
  lemma TarGzThenGzipCollide(b: string, e1: string, e2: string)
    requires WellNamed(b) && SimpleExt(e1) && SimpleExt(e2)
    ensures var out1 := Stem(b) + ".tar.gz";
      var cur1 := Stem(out1) + e1;
      var out2 := Stem(cur1) + ".gz";
      var cur2 := Stem(out2) + e2;
      var stage2 := Stem(cur2) + ".gz";
      var gunzipped := Stem(stage2);
      out2 == out1 && stage2 == out2 && Ext(cur2) == e2 &&
      Stem(gunzipped) + ".tar.gz" == stage2
  {
    var s := Stem(b);
    StemWellNamed(b);
    SplitExtAppend(s, ".tar");
    SplitExtAppend(s + ".tar", ".gz");
    assert s + ".tar.gz" == (s + ".tar") + ".gz";
    SplitExtAppend(s + ".tar", e1);
    StemWellNamed(s + ".tar");
    SplitExtAppend(s + ".tar", e2);
  }

  // ---------------------------------------------------------------------
  // The final move onto itself

  /** A decoded file whose path mentions "extracted_" and already is its own
      move target is removed by the move's clearing step, and the decode
      still reports the missing path as its result. */
  lemma FinishLosesSelfTarget(st: Progress)
    requires IsFile(st.fs, st.cur) && Text.Contains(st.cur, "extracted_")
    requires MoveTarget(st.cur) == st.cur
    ensures Finish(st) == Ok((st.fs - {st.cur}, st.cur)) && st.cur !in st.fs - {st.cur}
  {
  }
}
