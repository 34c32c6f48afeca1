# Multi-round file obfuscation: a Dafny model

The system ("Flask File Encryption System") hides an uploaded file under a
chain of archive layers. Each round compresses the working file with a
randomly drawn algorithm (zip, tar, gzip, tar.gz, tar.bz2). It then renames
the archive to a randomly drawn cosmetic extension and records both draws
under the round number in a JSON "password book" (the ledger). Decoding
replays the ledger from round N down to round 1.

This project models the core of that system and proves properties of the
model:

- **Configuration** (`config.dfy`): the algorithm list, the cosmetic
  extension pool, the upload folder, and the allow and deny sets.
- **Path primitives** (`paths.dfy`, `text.dfy`, `clock.dfy`, `json.dfy`):
  - Python's `os.path.splitext` and `basename`, `rfind`, `strip` and `lower`;
  - `str(n)` and the `%Y%m%d_%H%M%S` time stamp;
  - the parts of Python's dict and `in`/`len`/`get` semantics and of numeric
    equality that the validators rely on, where an exception counts as a
    failed check.
- **The file processor** (`files.dfy`):
  - a class that owns an abstract filesystem, a map from paths to files or
    directories;
  - a file's content is plain bytes, an archive (algorithm, member name,
    member content) or one of the degenerate results a codec leaves;
  - `compress_file`, `extract_file`, `change_extension` and
    `cleanup_temp_files` are methods proved equal to pure specification
    functions;
  - the search for the extracted payload is a method over a given walk
    order;
  - upload validation and upload naming are pure functions.
- **The encryption engine** (`engine.dfy`):
  - round planning and the ledger validator;
  - encode and decode as methods of an `Engine` class that owns the file
    processor. Each method is proved equal to a specification function:
    `EncodeSpec`, `DecodeSpec` and their round functions;
  - the random draws, the clock and the file digest are parameters.
- **The round-trip theorem** (`roundtrip.dfy`):
  - encoding succeeds when its names stay clear, and writes a valid ledger
    that describes each layer;
  - decoding with that ledger peels exactly those layers and gives back the
    input's content (`RoundTrip.RoundTrip`).
- **The ways the chain loses data** (`failures.dfy`): each naming
  condition of the theorem is matched by a lemma showing what happens
  without it.
- **The ledger manager** (`password_book.dfy`):
  - generation with a content-derived id, the format check, the save-name
    rule, and loading;
  - the encrypted envelope over abstract PBKDF2/Fernet/base64 functions;
  - merging. Saving and loading are methods of a class that owns the stored
    files.
- **The ledger matcher** (`app.py`'s part, in `app.dfy`):
  - the enhanced first-match search, the timestamp scrubber and the simple
    fallback matcher;
  - the three-step selection cascade of the decrypt page;
  - the round-source choice of the encrypt page.
- **The browser helpers** (`client.dfy`): the password-strength score and
  label, the "encryption strength" gauge, and the file-type and icon lookup.

## What the proofs show about the system

- **Round trip.** Encoding and then decoding with the ledger the encode
  wrote gives back the original content (`RoundTrip.RoundTrip`). This needs
  three naming conditions that the code does not enforce:
  - the names each round steps through are distinct from the name before
    them and are not directories;
  - the final name is none of the intermediate names;
  - each decode round finds a clear filesystem.

  The cosmetic pool shares ".zip", ".tar" and ".gz" with the
  compressed-stage extensions (`Failures.PoolOverlap`). Random draws
  therefore break each condition with positive probability:
  - (a) drawing the algorithm's own extension makes the rename target its
    own source; the archive is deleted and the round fails
    (`Failures.OwnExtensionFails`).
  - (b) a working name that already ends in the drawn algorithm's
    extension makes the compressor overwrite its own input. The round
    "succeeds" holding nothing of the input (`Failures.OwnInputOverwritten`,
    `Failures.OverwriteLoses`).
  - (c) two consecutive rounds with the same single-part algorithm and the
    same cosmetic extension walk through the same name
    (`Failures.RepeatedDrawSameName`). When the final name repeats an
    earlier one, the cleanup deletes the final file and the encode still
    reports success (`Failures.EncodeLosesFinal`).
- **Decode collision.** Round 1 with tar.gz followed by round 2 with gzip
  always collide: decoding round 2 leaves its stage file exactly where the
  tar.gz round then looks for its own. The tar.gz round then extracts the
  wrong file (`Failures.TarGzThenGzipCollide`,
  `Failures.RestageTakesLeftover`).
- **Self-target move.** A decoded file inside an extraction directory whose
  move target is its own path is deleted by the move's clearing step. The
  decode still reports that path (`Failures.FinishLosesSelfTarget`).
- **Encrypted ledgers cannot be loaded or saved.** An encrypted envelope has
  no `metadata` key:
  - it fails the format check, so `load_password_book` refuses every
    encrypted ledger (`PasswordBook.LoadVerdict`,
    `PasswordBook.EnvelopeIsNoLedger`);
  - the decrypt page loads each uploaded ledger before it tests the
    `encrypted` flag (app.py:323-339), so an envelope never reaches that
    page's decryption branch. A plain ledger that also carries
    `"encrypted": true` does reach it, since the format check ignores extra
    keys, and then fails with the generic message for want of a salt
    (`PasswordBook.FlaggedLedgerLoads`);
  - an envelope cannot be saved under a generated name either
    (`PasswordBook.EnvelopeHasNoSaveName`).
- **Two validators that disagree.** The engine's ledger check and the
  manager's format check differ. Every ledger the engine accepts passes the
  format check once it carries a version. The converse fails, because the
  format check never looks at the round keys
  (`PasswordBook.EngineValidIsFormat`, `PasswordBook.FormatIgnoresRoundKeys`).
  It also fails for a float `total_rounds`: the format check compares it
  numerically with the number of rounds, while the engine's `range` raises
  on it (`PasswordBook.FormatAcceptsFloatTotal`).
- **Every encode writes a valid ledger.** Whatever the names, an encode
  that succeeds with a non-negative round count writes a ledger that the
  engine's check accepts with that count. A negative count runs no round
  and still succeeds, but its ledger fails the check
  (`RoundTrip.EncodeLedgerValid`). Each record names an algorithm drawn
  from the list that has a suffix of its own, so decoding such a ledger
  never falls back to ".zip" (`RoundTrip.EncodeLedgerRecords`), and the
  cleanup never removes the input (`RoundTrip.EncodeSparesInput`).

## Model

| member | source | states |
|---|---|---|
| Config.AllowedDeniedDisjoint | config.py:7-12 | the allowed and denied extension sets share no element |
| Failures.PoolSimple | config.py:18-21 | every cosmetic extension is a dot followed by dot-free characters |
| Failures.PoolOverlap | config.py:18-21 | a pool entry is some algorithm's compressed extension exactly when it is ".zip", ".tar" or ".gz" |
| Failures.SingleSuffixSimple | config.py:15 | zip, tar and gzip have a supported single-part compressed extension |
| Text.StripEmpty | utils/encryption_engine.py:23 | `strip()` yields "" exactly when every character is whitespace |
| Text.NatToStringInjective | utils/encryption_engine.py:75 | distinct round numbers give distinct ledger keys |
| Text.Lower | utils/file_processor.py:30 | no upper-case ASCII letter survives, and the result holds a '.' exactly where the input does, so the extension check's dot test is unaffected by it |
| Text.LowerIdempotent | utils/file_processor.py:30 | lower-casing an already lower-cased extension changes nothing |
| Text.LowerAppend | utils/file_processor.py:30 | lower-casing a name is lower-casing its stem and its extension separately |
| Clock.Format | utils/file_processor.py:46 | the time stamp is 15 characters: eight digits, '_', six digits |
| Clock.FormatInjective | utils/password_book.py:38 | distinct clock readings give distinct time stamps |
| Paths.RFind | utils/file_processor.py:30 | the index of the last occurrence, or -1 when there is none |
| Paths.SplitExt | utils/file_processor.py:199 | stem and extension concatenate to the path |
| Paths.ExtStart | utils/file_processor.py:62 | the extension starts at a '.' after which the path holds no '.' and no '/' |
| Paths.Ext | utils/encryption_engine.py:125 | a non-empty extension is '.' followed by characters that are neither '.' nor '/' |
| Paths.Basename | utils/encryption_engine.py:77-78 | the final component holds no '/' |
| Paths.BasenameAt | utils/encryption_engine.py:77-78 | the final component is exactly the text after the last '/' |
| Paths.SplitExtAppend | config.py:18-21 | appending a pool extension to a well-named path splits back into the two parts, and the result is well named |
| Paths.SplitExtIllNamed | utils/file_processor.py:62 | a final component made only of dots is not split |
| Paths.StemWellNamed | utils/file_processor.py:199 | the stem of a well-named path is well named |
| Files.CheckedExtension | utils/file_processor.py:30 | never contains a '.'; with a '.' in the name it is the lower-cased text after the last one, without one it is "" |
| Files.ValidateFileVerdict | utils/file_processor.py:24-40 | accepted iff non-empty and allowed; the deny test never changes the verdict; no '.' means refused; the refusal message |
| Files.SavedUploadName | utils/file_processor.py:46-49 | stored name is time stamp, '_', first eight digest characters, '_', the client's name |
| Files.SavedUploadPath | utils/file_processor.py:42-57 | the upload is stored under the upload folder at that name |
| Files.CompressedSuffix | utils/file_processor.py:59-99 | a suffix exists exactly for the five configured algorithms |
| Files.CompressEffect | utils/file_processor.py:59-99 | an unsupported algorithm changes nothing and fails; otherwise exactly one archive of the input is written at stem + suffix |
| Files.RemoveTree | utils/file_processor.py:237 | `rmtree` removes the directory and everything under it and nothing else |
| Files.Move | utils/file_processor.py:206 | the rename puts the old node at the target, removes the source and changes no other path |
| Files.ExtractArchive | utils/file_processor.py:101-164 | extracting an archive with its own algorithm gives back its member: inside the extraction directory for zip and tar, at the stem for gzip |
| Files.ExtractDirApart | utils/file_processor.py:106-115 | the extraction directory is neither the archive, nor its stem, nor an ancestor of either |
| Files.FirstMatchInWalked | utils/file_processor.py:174-181 | a match found in one directory is its first matching file |
| Files.FirstMatchInNone | utils/file_processor.py:174-181 | no match in a directory means none of its files matches |
| Files.FirstMatchWalked | utils/file_processor.py:174-181 | a matched file is a walked file |
| Files.FirstFileWalked | utils/file_processor.py:184-187 | the fallback is the first file of the first non-empty directory of the walk |
| Files.FirstFileNone | utils/file_processor.py:184-187 | no fallback means every walked directory is empty |
| Files.FindExtractedShape | utils/file_processor.py:166-194 | the located path is a walked file, or the directory when the walk holds no file |
| Files.FindExtractedSingle | utils/file_processor.py:166-194 | a walk of one file locates that file |
| Files.FindExtractedFile | utils/file_processor.py:166-194 | the two search loops compute the first-match-then-first-file rule |
| Files.ChangeExtensionMoves | utils/file_processor.py:196-211 | a successful rename moves the content to stem + extension, removes the old path and changes no other path |
| Files.ChangeExtensionFails | utils/file_processor.py:196-211 | failure iff the path is missing, the target is a directory, or the target is the path; the last removes the path first |
| Files.CleanupListEffect | utils/file_processor.py:230-249 | the listed branch only removes, each removal justified by a listed path, and every eligible listed path is gone |
| Files.WipeUploadsEffect | utils/file_processor.py:250-260 | the folder-wide branch removes each direct file child and nothing outside the upload folder |
| Files.FileProcessor.constructor | utils/file_processor.py:16-22 | the upload folder exists as a directory afterwards |
| Files.FileProcessor.CompressFile | utils/file_processor.py:59-99 | the new filesystem and result are those of the compress specification |
| Files.FileProcessor.ExtractFile | utils/file_processor.py:101-164 | the new filesystem and result are those of the extract specification |
| Files.FileProcessor.ChangeExtension | utils/file_processor.py:196-211 | the new filesystem and result are those of the rename specification |
| Files.FileProcessor.CleanupTempFiles | utils/file_processor.py:227-263 | verdict, message and filesystem are those of the cleanup specification |
| EncryptionEngine.CalculateRounds | utils/encryption_engine.py:21-33 | always 1..10; seed mode gives (16·d0 + d1) mod 10 + 1 of the seed's digest; manual mode clamps into 1..10 |
| EncryptionEngine.CalculateRoundsModes | utils/encryption_engine.py:23-33 | seed mode iff the seed is present and not all whitespace; a manual count in 1..10 is kept |
| EncryptionEngine.CompressedExtension | utils/encryption_engine.py:285-295 | raises exactly for an unhashable algorithm value |
| EncryptionEngine.CompressedExtensionAgrees | utils/encryption_engine.py:285-295 | the five algorithms map to the suffix `compress_file` wrote; any other string maps to ".zip" |
| EncryptionEngine.RoundCount | utils/encryption_engine.py:268-270 | a valid ledger's round count equals its recorded total |
| EncryptionEngine.ValidRoundKeys | utils/encryption_engine.py:253-283 | a valid ledger's rounds dict is keyed exactly "1".."N" |
| EncryptionEngine.ZeroRoundLedgerAccepted | utils/encryption_engine.py:253-283 | a zero-round ledger with an empty rounds dict is accepted |
| EncryptionEngine.Choose | utils/encryption_engine.py:59 | a draw is an element of the list drawn from |
| EncryptionEngine.Track | utils/encryption_engine.py:65-66 | the list only grows, by at most the new path; the path is listed afterwards iff it was listed or is not the input, and a list without the input never takes it in |
| EncryptionEngine.EncodeFromStep | utils/encryption_engine.py:55-82 | no algorithms fails; otherwise a failed round ends the encode, and a successful one continues from its result |
| EncryptionEngine.RemoveFilesEffect | utils/encryption_engine.py:236-243 | the file loop removes exactly the listed files |
| EncryptionEngine.RemoveDirsSubmap | utils/encryption_engine.py:245-251 | the directory loop leaves every surviving entry as it was |
| EncryptionEngine.RemoveDirsJustified | utils/encryption_engine.py:245-251 | a removed entry is a listed directory or lies under one |
| EncryptionEngine.RemoveDirsComplete | utils/encryption_engine.py:245-251 | a listed directory goes with everything under it |
| EncryptionEngine.Restage | utils/encryption_engine.py:124-152 | the name a round goes on with is present in the filesystem |
| EncryptionEngine.DecodeFromStep | utils/encryption_engine.py:115-178 | rounds run N, N-1, .., 1: a missing record stops there, a failed round ends the decode, a successful one continues with the next lower round |
| EncryptionEngine.DecodeVerdict | utils/encryption_engine.py:101-232 | an invalid ledger fails before any file changes; success means every round and the final move ran, and no cleanup happened |
| EncryptionEngine.Engine.constructor | utils/encryption_engine.py:16-19 | the engine's processor is fresh and its upload folder exists |
| EncryptionEngine.Engine.CleanupTempResources | utils/encryption_engine.py:234-251 | the filesystem afterwards is that of the two cleanup loops |
| EncryptionEngine.Engine.MultiRoundEncrypt | utils/encryption_engine.py:35-99 | the round loop's filesystem and result are those of `EncodeSpec` |
| EncryptionEngine.Engine.DecryptRound | utils/encryption_engine.py:115-178 | one round's progress or failure is that of `DecodeRound` |
| EncryptionEngine.Engine.ExtractRestaged | utils/encryption_engine.py:155-176 | the extract-and-continue steps of a round are those of `ExtractStage` |
| EncryptionEngine.Engine.FinishDecrypt | utils/encryption_engine.py:181-232 | the final stage's filesystem and result are those of `Conclude` |
| EncryptionEngine.Engine.DecryptStep | utils/encryption_engine.py:115-178 | one pass of the loop: when the rounds still to run end in `whole`, a failing pass (a missing record or a failed round) is `whole` itself, and a successful one leaves one round fewer that still ends in `whole`; the file system is the one the pass leaves |
| EncryptionEngine.Engine.DecryptRounds | utils/encryption_engine.py:115-178 | the countdown loop's result is that of `DecodeFrom` |
| EncryptionEngine.Engine.MultiRoundDecrypt | utils/encryption_engine.py:101-232 | the filesystem and result are those of `DecodeSpec` |
| RoundTrip.NamesOf | utils/encryption_engine.py:55-82 | the names a plan's rounds walk through satisfy the naming rule of every round |
| RoundTrip.NextNames | utils/encryption_engine.py:59-72 | one more round extends the names and keeps the earlier ones |
| RoundTrip.PlanNamesUnique | utils/encryption_engine.py:59-72 | the plan determines the names each round walks through |
| RoundTrip.EncodeRoundEffect | utils/encryption_engine.py:58-82 | a round with clear names writes one archive layer at the new name, removes the archive name, creates no directory, tracks the old name and records the round |
| RoundTrip.EncodeRoundChain | utils/encryption_engine.py:55-82 | a round of a plan with clear names succeeds and keeps the chain invariant |
| RoundTrip.EncodeFromChain | utils/encryption_engine.py:55-82 | all remaining rounds with clear names succeed and keep the chain invariant |
| RoundTrip.EncodeRuns | utils/encryption_engine.py:55-82 | every round of a clearly named plan succeeds from the start |
| RoundTrip.ChainStart | utils/encryption_engine.py:40-52 | the state before round 1 satisfies the chain invariant |
| RoundTrip.RecordsKeys | utils/encryption_engine.py:75-80 | the ledger is keyed exactly "1".."N" |
| RoundTrip.RecordsLookup | utils/encryption_engine.py:75-80 | record k describes round k |
| RoundTrip.RecordsShaped | utils/encryption_engine.py:75-80 | every record names an extension and an algorithm |
| RoundTrip.RecordFields | utils/encryption_engine.py:75-80 | a record's algorithm and extension fields are the round's draws |
| RoundTrip.TempsExcludes | utils/encryption_engine.py:65-66 | the input, and any name not revisited, never enters the cleanup list |
| RoundTrip.TempsIncludes | utils/encryption_engine.py:65-66 | every intermediate working file other than the input is on the cleanup list |
| RoundTrip.LedgerValid | utils/encryption_engine.py:253-283 | metadata with the four keys and total N, plus records "1".."N" naming extension and algorithm, passes the validator with N rounds |
| RoundTrip.EncodeLedger | utils/encryption_engine.py:41-87 | the ledger built from a plan's records (given names) is valid and counts its rounds; `EncodeLedgerValid` states it for every encode |
| RoundTrip.EncodeRoundRecords | utils/encryption_engine.py:57-79 | a successful round adds the record of its own round number, naming the extension and algorithm it was given, the algorithm one of the five that compress, and keeps the other records |
| RoundTrip.EncodeRecordsStep | utils/encryption_engine.py:55-81 | a due round's outcome is where the encode stops or continues; on success the records are keyed "1".."n", each with a drawn, compressing algorithm and a pool extension; no outcome puts the input on the cleanup list |
| RoundTrip.EncodeFromRecords | utils/encryption_engine.py:55-81 | for any names, a successful run of the remaining rounds leaves records keyed exactly "1".."N", each with a string algorithm drawn from the list and among the five that compress and a string extension from the pool; successful or not, the input never joins the cleanup list |
| RoundTrip.EncodeLedgerRecords | utils/encryption_engine.py:74-87 | every record of a successful encode's ledger is drawn as above, so its algorithm has a suffix of its own and the decode's `_get_compressed_extension` returns that suffix, never the ".zip" default |
| RoundTrip.EncodeSparesInput | utils/encryption_engine.py:65-96 | on success and on failure the input is off the cleanup list, so the cleanup leaves it as the rounds left it |
| RoundTrip.EncodeLedgerValid | utils/encryption_engine.py:41-87 | for all inputs: a successful encode with N >= 0 rounds writes a ledger the engine's validator accepts with N rounds; with N < 0 it succeeds and its ledger is refused |
| RoundTrip.CleanupKeeps | utils/encryption_engine.py:89-90 | the encode's cleanup keeps a file not on its list |
| RoundTrip.EncodeChain | utils/encryption_engine.py:35-99 | a clearly named encode succeeds at the last name, holding the input wrapped one layer per round, with a valid ledger of its records |
| RoundTrip.PeelsNone | utils/encryption_engine.py:115-178 | zero layers around a core are the core |
| RoundTrip.PeelsCore | utils/encryption_engine.py:115-178 | the core is zero layers around itself |
| RoundTrip.ExtractStagePeels | utils/encryption_engine.py:155-176 | extracting a restaged archive continues from its member |
| RoundTrip.DecodeRoundPeels | utils/encryption_engine.py:115-178 | a decode round on a clear filesystem removes exactly one layer |
| RoundTrip.PeelRound | utils/encryption_engine.py:115-178 | round k from k layers continues from its staged state, which holds k - 1 layers |
| RoundTrip.LinkExtend | utils/encryption_engine.py:115-178 | one more linked round extends the linked prefix |
| RoundTrip.StepPeels | utils/encryption_engine.py:115-178 | a staged round peels one layer and links |
| RoundTrip.StagesPeel | utils/encryption_engine.py:115-178 | from k layers every staged round runs, ending at the core |
| RoundTrip.LinkStep | utils/encryption_engine.py:115-178 | a linked prefix links each of its rounds |
| RoundTrip.LinksRun | utils/encryption_engine.py:115-178 | linked rounds compose into the whole countdown |
| RoundTrip.FinishKeeps | utils/encryption_engine.py:181-198 | the final stage keeps the content when its move is clear |
| RoundTrip.DecodeRecovers | utils/encryption_engine.py:101-232 | decoding a file holding the ledger's layers around a core, on a clear filesystem, yields the core |
| RoundTrip.LedgerLayer | utils/encryption_engine.py:75-80 | the ledger describes the layer round k wrote |
| RoundTrip.LedgerLayers | utils/encryption_engine.py:75-80 | the ledger describes every layer |
| RoundTrip.WrapStep | utils/encryption_engine.py:58-82 | the layer round k writes is the one record k describes |
| RoundTrip.WrapPeels | utils/encryption_engine.py:55-82 | the layers an encode wraps are the layers its ledger describes |
| RoundTrip.RoundTrip | utils/encryption_engine.py:35-232 | encoding under the naming conditions, then decoding with its ledger, gives back the input's content |
| Failures.OwnExtensionFails | utils/file_processor.py:199-211 | case (a): drawing the algorithm's own extension deletes the archive and the round fails |
| Failures.OwnInputOverwritten | utils/file_processor.py:59-99 | case (b): a name already ending in the algorithm's extension is compressed onto itself, and the round carries on with the degenerate archive |
| Failures.OverwriteLoses | utils/file_processor.py:59-99 | that degenerate archive is not a layer around the input |
| Failures.RepeatedDrawSameName | utils/encryption_engine.py:59-72 | case (c): two equal consecutive single-part draws walk through the same names |
| Failures.EncodeLosesFinal | utils/encryption_engine.py:65-90 | when the final name repeats an earlier one, the encode reports success yet the final file is gone |
| Failures.RestageKeeps | utils/encryption_engine.py:139-152 | with free names, restaging moves the file unchanged to its stage name |
| Failures.RestageTakesLeftover | utils/encryption_engine.py:147-152 | an existing stage-name file is used in place of the current file |
| Failures.TarGzThenGzipCollide | utils/encryption_engine.py:139-152 | after tar.gz then gzip, round 2's stage file sits where round 1 looks for its own |
| Failures.FinishLosesSelfTarget | utils/encryption_engine.py:185-196 | a result that is its own move target is deleted and still reported |
| PasswordBook.GenerateVerdict | utils/password_book.py:15-32 | generation succeeds iff the data is a dict holding a metadata dict and rounds |
| PasswordBook.GenerateShape | utils/password_book.py:15-32 | exactly four keys, version "1.0", the generator name, the given rounds; the id is stored in both metadata dicts and is the digest of the book before insertion |
| PasswordBook.GenerateIdRecomputes | utils/password_book.py:189-192 | for metadata without an id, the id is the digest of the result with the id taken out |
| PasswordBook.GeneratedIsValid | utils/password_book.py:15-32 | generating from an engine-valid ledger passes both validators |
| PasswordBook.EngineValidIsFormat | utils/password_book.py:194-218 | an engine-valid ledger with a version passes the format check |
| PasswordBook.FormatIgnoresRoundKeys | utils/password_book.py:194-218 | a one-round ledger keyed "x" passes the format check but not the engine's |
| Json.PyNumber | utils/password_book.py:210-212 | ints, floats and bools compare as numbers (a bool as 1 or 0), an int as its real value; other values equal no number |
| PasswordBook.FormatAcceptsFloatTotal | utils/password_book.py:210-212 | a one-round ledger with total 1.0 and a complete record "1" passes the format check but not the engine's, whose `range` raises on the float |
| PasswordBook.EnvelopeRoundTrip | utils/password_book.py:68-125 | the envelope has exactly the keys encrypted, salt, data and version, and the same password decrypts it to the ledger, given sound byte codecs and JSON text that reads the ledger back |
| PasswordBook.SoundMet | utils/password_book.py:68-125 | the codec laws the round trip assumes can all hold at once, so the round trip is not vacuous |
| PasswordBook.DecryptErrors | utils/password_book.py:98-125 | "not encrypted" iff a dict whose flag is falsy or missing; every other failure is the generic wrong-password error |
| PasswordBook.FlaggedLedgerLoads | app.py:323-339 | a format-valid ledger flagged `encrypted` is loaded and reaches the decryption, which fails with the generic message |
| PasswordBook.EnvelopeIsNoLedger | utils/password_book.py:87-92 | an envelope fails the format check |
| PasswordBook.SaveNameShape | utils/password_book.py:34-51 | no id or no original name means no generated name; a name is stamp, '_', …, ending in ".json" |
| PasswordBook.SaveNameOfStrings | utils/password_book.py:37-40 | for string fields the name is stamp_original_id[:8].json |
| PasswordBook.EnvelopeHasNoSaveName | utils/password_book.py:34-51 | an envelope gets no generated name: its metadata is missing |
| PasswordBook.LoadVerdict | utils/password_book.py:53-66 | loading succeeds iff the file parses to a format-valid value; an envelope file is refused as invalid format |
| PasswordBook.SaveThenLoad | utils/password_book.py:34-66 | a format-valid ledger that was saved loads back unchanged, given JSON text that reads it back |
| PasswordBook.PasswordBookManager.constructor | utils/password_book.py:11-13 | the manager starts with the given stored files |
| PasswordBook.PasswordBookManager.SavePasswordBook | utils/password_book.py:34-51 | the path under the storage folder at the given or generated name; the JSON text is stored on success and nothing changes on failure |
| PasswordBook.PasswordBookManager.LoadPasswordBook | utils/password_book.py:53-66 | the result is that of the load rule over the stored files |
| PasswordBook.MergePasswordBooks | utils/password_book.py:127-153 | the loop computes the merge specification |
| PasswordBook.MergeStaysFailed | utils/password_book.py:127-153 | once a pair fails, the merge stays failed |
| PasswordBook.MergeUpToSome | utils/password_book.py:127-153 | the partial merge fails iff one of its pairs fails |
| PasswordBook.IdSetStep | utils/password_book.py:138-148 | each pair adds its id to the key set |
| PasswordBook.MergeUpToKeys | utils/password_book.py:127-153 | both merged dicts are keyed by exactly the pairs' ids |
| PasswordBook.MergeUpToLast | utils/password_book.py:127-153 | under each id sit the filename and entry of the last pair with it |
| PasswordBook.MergeEffect | utils/password_book.py:127-153 | fails iff some ledger lacks a copied field; total_files counts every input even when ids collide; the last ledger of each id wins |
| App.Scrub | app.py:96-100 | the substitution never lengthens a string and leaves a string without '_' unchanged |
| App.RemoveTimestampDated | app.py:96-100 | "20241102_143000_a" becomes "a" |
| App.RemoveTimestampPacked | app.py:96-100 | "x20241102143000_y" becomes "xy": the second alternative is unanchored |
| App.RemoveTimestampShape | app.py:96-100 | the result is never longer, and a name without '_' is unchanged |
| App.MatchFilenamePrefixProps | app.py:84-93 | false for an empty original base, symmetric for non-empty bases, true for equal non-empty ones |
| App.MetaValue | app.py:49 | reading a metadata field raises exactly when the book or its metadata is not a dict |
| App.BaseOf | app.py:50 | a falsy value has base ""; it raises exactly for a truthy non-string; a string's base followed by its extension is the string |
| App.FirstFrom | app.py:47-81 | the scan finds the first true verdict, or raises at the first raising candidate, or finds nothing iff all are false |
| App.FirstIsFirst | app.py:47-81 | a candidate preceded only by non-matches is where the scan stops |
| App.FindMatchingPasswordBook | app.py:42-81 | the loop returns the first-match search over the enhanced verdicts |
| App.ExactFinalNameFound | app.py:61-76 | a candidate whose recorded final name is the artifact's matches, so the search finds something |
| App.EarlierCandidateWins | app.py:59-78 | an earlier matching candidate beats a later exact final-name match |
| App.SimplePasswordBookMatch | app.py:103-117 | the loop returns the first-match search over the simple verdicts |
| App.NamelessBookMatchesAll | app.py:108-114 | a ledger without an original name matches every artifact |
| App.RecoveredSound | app.py:385-391 | a truthy ledger from step 2 comes with the name of a candidate holding it |
| App.RecoverName | app.py:387-391 | the loop returns the first candidate's name equal to the ledger, else the fallback |
| App.MatchFirstTwo | app.py:380-391 | the first two steps of the cascade |
| App.MatchForDecrypt | app.py:376-408 | the cascade's reassignments compute its three-step outcome |
| App.CascadeSound | app.py:376-408 | a matched ledger is truthy and is an uploaded ledger under the reported name |
| App.CascadePrefersEnhanced | app.py:380-382 | a truthy ledger from the enhanced matcher is the answer |
| App.CascadeSolePair | app.py:394-398 | one artifact and one truthy ledger pair up unless a matcher raises |
| App.CascadeUnmatched | app.py:400-408 | a failure lists every ledger, and happens iff no step supplies a truthy ledger |
| App.ChooseRoundsSource | app.py:183-193 | the seed decides iff the method is 'specific_code' and the code is not all whitespace; otherwise the manual count is clamped; always 1..10 |
| Client.CheckPasswordStrength | static/js/main.js:368-384 | the accumulated score equals the specified sum of bonuses |
| Client.StrengthCapUnreached | static/js/main.js:368-384 | the uncapped score is at most 100, so the cap never binds |
| Client.StrengthZero | static/js/main.js:368-384 | the score is 0 exactly for the empty password |
| Client.StrengthMonotone | static/js/main.js:368-384 | appending characters never lowers the score |
| Client.LabelMonotone | static/js/main.js:389-394 | a higher score never gets a weaker label |
| Client.LabelOfPassword | static/js/main.js:368-394 | under eight characters, at most 60 and "中等"; twelve or more with all four classes, 100 and "非常强" |
| Client.EncryptionStrength | static/js/main.js:359-363 | exactly 10·rounds + 5·count below 100, and 100 from there on |
| Client.EncryptionStrengthMonotone | static/js/main.js:359-363 | more rounds or algorithms never lower the gauge |
| Client.TypeKey | static/js/main.js:210-241 | the lower-cased text after the last '.', or the whole lower-cased name |
| Client.FileIconTotal | static/js/main.js:210-261 | every returned type has an icon, the icon is a table value, and an unknown key gives "file" and "fa-file" |

## Left out

- Real codecs are not modelled. zipfile, tarfile, gzip and bz2 are written
  as operations on abstract contents. A tar reader's detection of
  compression is kept, but byte-level formats are not.
- MD5, PBKDF2-HMAC-SHA256, Fernet, base64url and JSON text are
  function-valued parameters. The envelope's round trip assumes that
  base64 and Fernet invert themselves (`PasswordBook.Sound`) and that the
  JSON text of the one ledger reads back (`PasswordBook.ReadsBack`). These
  can hold together (`PasswordBook.SoundMet`). JSON text cannot read back
  every value, because `JFloat` ranges over all reals, so the law is asked
  only of the ledger in question. Fernet's random IV and timestamp are
  inside the sealing function.
- The clock (`datetime.now`, `time.time`), `random.choice` and
  `os.urandom` become parameters: per-round draws, stamps and the salt.
- `os.walk` order is a given sequence of (directory, files) pairs, and the
  rest of directory listing and `stat` are not modelled.
- Logging is left out. The hash comparison at the end of a decode only
  logs, so it has no effect in the model.
- Directory re-zipping in the final decode stage
  (utils/encryption_engine.py:199-215) is not modelled. The zip it writes
  is given `Garbled` content.
- The exception text of raised Python errors is not modelled; messages the
  code composes from them carry "" in its place.
- A file write in `save_password_book` always succeeds in the model.
- The dicts the matchers iterate are sequences of (name, ledger) pairs in
  insertion order. Python's `True == 1` key collisions are not modelled;
  JSON keys are strings in the model.
- Unicode digits for `\d`, Unicode lower-casing, and JavaScript's UTF-16
  string length are not modelled: the model uses ASCII digits, ASCII
  lower-casing and one character per code point.
- `getFileType`'s object lookup also answers inherited keys such as
  "constructor". The model uses a finite table.
- Flask routes, sessions, templates, flash messages and downloads are left
  out, as is the loop of the decrypt page that loads uploaded ledgers
  (app.py:319-349).
- `list_password_books`, `delete_password_book`, `cleanup_old_books` and
  `get_file_info` are directory listing and `stat` calls and are not
  modelled.
- main.js DOM, timer, floating-point and browser-API helpers are left out,
  as are test_deployment.py's environment checks.
- JSON numbers with a fraction or exponent are exact reals (`JFloat`).
  Float rounding, and the NaN and infinities that Python's decoder accepts,
  are not modelled.
- Files.Move: only the moved node changes path; a moved directory's
  descendants stay at their old paths. A restage can move such a directory
  when `_find_extracted_file` returned the extraction directory because it
  held no file (utils/encryption_engine.py:139-152,
  utils/file_processor.py:166-194).
- One `dumps` parameter stands for both `json.dumps`
  (utils/password_book.py:83) and the indented, non-ASCII-escaping
  `json.dump` that saves a ledger (utils/password_book.py:46); only the
  fact that `loads` reads back what either wrote is used, not their layout.
- The ledger-name lookup by equality (`App.EqualVerdicts`) compares
  ledgers structurally, so 1, 1.0 and True are different values there, where Python's `==` equates them
  (app.py:389); that comparison only picks the ledger name that is logged
  (app.py:410).
- The merged dictionaries are maps, so the order in which ids first appear
  is not kept.
- RoundTrip.RoundTrip: takes the decode's intermediate states as a
  parameter and requires each round to find its filesystem clear; it does
  not derive those states from the encode.
- EncryptionEngine.CompressedExtension: the ".zip" default for an unknown
  algorithm is modelled; ledgers written by an encode never reach it
  (`RoundTrip.EncodeLedgerRecords`), hand-edited or foreign ledgers can.
- EncryptionEngine.Restage: its contract states only that the name it goes
  on with exists; its effect is stated by `Failures.RestageKeeps` and
  `Failures.RestageTakesLeftover`.
- Files.FileProcessor.ExtractFile: extraction succeeds only when the
  archive's format is the one asked for (or one the plain tar reader
  detects); other library behaviour on mismatched formats is not modelled.
