/** The ledger ("password book") manager: building a ledger with its
    content-derived id, the format check, saving and loading ledger files,
    the password-protected envelope, and merging ledgers. Serialisation,
    MD5, PBKDF2-HMAC-SHA256 (section 5.2 of RFC 8018), Fernet and base64url
    (section 5 of RFC 4648) are abstract functions, and the few laws the
    proofs need of them are stated where they are used. */
module PasswordBook {
  import opened Wrappers
  import opened Json
  import Text
  import Clock
  import Paths
  import EncryptionEngine

  /** The folder the manager keeps ledger files in. */
  const StorageDir: string := "static/password_books"

  const FormatVersion: string := "1.0"

  const GeneratorName: string := "Flask File Encryption System"

  // ---------------------------------------------------------------------
  // generate_password_book and _generate_book_id

  /** `_generate_book_id(book)`: the MD5 digest of the key-sorted JSON text. */
  function BookId(book: Json, dumpsSorted: Json -> string, md5: string -> Text.HexDigest): Text.HexDigest
  {
    md5(dumpsSorted(book))
  }

  /** A generated ledger, its id, and the caller's argument after the id
      was written into the metadata dict the two share. */
  datatype Generated = Generated(book: Json, id: Text.HexDigest, data: Json)

  /** The four-key ledger built around given metadata and rounds. */
  function Assemble(meta: Json, rounds: Json): Json
  {
    JObj(map["metadata" := meta, "rounds" := rounds,
             "version" := JStr(FormatVersion), "generator" := JStr(GeneratorName)])
  }

  /** `generate_password_book(encryption_data)`. Indexing a missing key or a
      value that is not a dict raises; so does storing the id into metadata
      that is not a dict. */
  function GeneratePasswordBook(data: Json, dumpsSorted: Json -> string, md5: string -> Text.HexDigest): Result<Generated, string>
  {
    match (PyGet(data, "metadata"), PyGet(data, "rounds"))
    case (Some(meta), Some(rounds)) =>
      if !meta.JObj? then Err("生成密码本失败: ")
      else
        var id := BookId(Assemble(meta, rounds), dumpsSorted, md5);
        var meta' := JObj(meta.fields["book_id" := JStr(id)]);
        Ok(Generated(Assemble(meta', rounds), id, JObj(data.fields["metadata" := meta'])))
    case _ => Err("生成密码本失败: ")
  }

  /** The id recorded in a ledger's metadata. */
  function RecordedId(book: Json): Option<Json>
  {
    match PyGet(book, "metadata")
    case Some(meta) => PyGet(meta, "book_id")
    case None => None
  }

  /** A ledger with its recorded id taken out of the metadata again. */
  function WithoutId(book: Json): Json
  {
    match PyGet(book, "metadata")
    case Some(meta) =>
      if meta.JObj? then JObj(book.fields["metadata" := JObj(meta.fields - {"book_id"})]) else book
    case None => book
  }

  /** Generation succeeds exactly on a dict holding a metadata dict and
      rounds. */
  lemma GenerateVerdict(data: Json, dumpsSorted: Json -> string, md5: string -> Text.HexDigest)
    ensures GeneratePasswordBook(data, dumpsSorted, md5).Ok? <==>
      data.JObj? && "metadata" in data.fields && "rounds" in data.fields && data.fields["metadata"].JObj?
  {
  }

  /** A generated ledger has exactly its four keys and records its id in the
      metadata, where the caller's metadata holds it too. The id is the
      digest of the ledger as it was before the id went in, which for
      metadata that held no id can be recomputed from the ledger alone. */
  lemma GenerateShape(data: Json, dumpsSorted: Json -> string, md5: string -> Text.HexDigest)
    requires GeneratePasswordBook(data, dumpsSorted, md5).Ok?
    ensures var g := GeneratePasswordBook(data, dumpsSorted, md5).value;
      g.book.JObj? && g.book.fields.Keys == {"metadata", "rounds", "version", "generator"} &&
      g.book.fields["version"] == JStr("1.0") &&
      g.book.fields["generator"] == JStr("Flask File Encryption System") &&
      g.book.fields["rounds"] == data.fields["rounds"] &&
      RecordedId(g.book) == Some(JStr(g.id)) && RecordedId(g.data) == Some(JStr(g.id)) &&
      g.id == BookId(Assemble(data.fields["metadata"], data.fields["rounds"]), dumpsSorted, md5)
  {
  }

  /** For metadata that held no id, the id is the digest of the ledger with
      its id taken out again. */
  lemma GenerateIdRecomputes(data: Json, dumpsSorted: Json -> string, md5: string -> Text.HexDigest)
    requires GeneratePasswordBook(data, dumpsSorted, md5).Ok?
    requires "book_id" !in data.fields["metadata"].fields
    ensures var g := GeneratePasswordBook(data, dumpsSorted, md5).value;
      g.id == BookId(WithoutId(g.book), dumpsSorted, md5)
  {
    var g := GeneratePasswordBook(data, dumpsSorted, md5).value;
    var meta := data.fields["metadata"];
    var meta' := JObj(meta.fields["book_id" := JStr(g.id)]);
    assert g.book == Assemble(meta', data.fields["rounds"]);
    assert meta'.fields - {"book_id"} == meta.fields;
    assert WithoutId(g.book) == Assemble(meta, data.fields["rounds"]);
  }

  // ---------------------------------------------------------------------
  // _validate_password_book_format

  /** `_validate_password_book_format(book)`; a raised exception counts as
      invalid. Unlike the engine's check it never looks at the round keys. */
  predicate ValidFormat(book: Json)
  {
    PyIn("metadata", book) == Some(true) && PyIn("rounds", book) == Some(true) &&
    PyIn("version", book) == Some(true) &&
    var meta := PyGet(book, "metadata");
    meta.Some? &&
    (forall k :: 0 <= k < |EncryptionEngine.RequiredMetadata| ==>
       PyIn(EncryptionEngine.RequiredMetadata[k], meta.value) == Some(true)) &&
    var total := PyGet(meta.value, "total_rounds");
    var rounds := PyGet(book, "rounds");
    total.Some? && rounds.Some? && PyLen(rounds.value).Some? &&
    PyNumber(total.value) == Some(PyLen(rounds.value).value as real)
  }

  /** A ledger the engine accepts passes the format check once it has a
      version. */
  lemma EngineValidIsFormat(book: Json)
    requires EncryptionEngine.ValidatePasswordBook(book) && PyIn("version", book) == Some(true)
    ensures ValidFormat(book)
  {
  }

  /** The converse does not hold: a one-round ledger whose single record
      sits under a key other than "1" passes the format check but not the
      engine's. */
  lemma FormatIgnoresRoundKeys(meta: map<string, Json>)
    requires forall k :: 0 <= k < |EncryptionEngine.RequiredMetadata| ==> EncryptionEngine.RequiredMetadata[k] in meta
    requires "total_rounds" in meta && meta["total_rounds"] == JInt(1)
    ensures var book := JObj(map["metadata" := JObj(meta), "rounds" := JObj(map["x" := JNull]),
                                 "version" := JStr("1.0")]);
      ValidFormat(book) && !EncryptionEngine.ValidatePasswordBook(book)
  {
    var book := JObj(map["metadata" := JObj(meta), "rounds" := JObj(map["x" := JNull]),
                         "version" := JStr("1.0")]);
    assert "total_rounds" == EncryptionEngine.RequiredMetadata[1];
    assert "1" != "x";
    assert !EncryptionEngine.RecordPresent(book.fields["rounds"], 1);
  }

  /** A float total separates them too: `len(rounds) != 1.0` is false, so
      the format check passes a one-round ledger whose total is 1.0, while
      the engine's `range(1, total_rounds + 1)` raises on the float and its
      check fails, even with a complete record "1". */
  lemma FormatAcceptsFloatTotal(meta: map<string, Json>)
    requires forall k :: 0 <= k < |EncryptionEngine.RequiredMetadata| ==> EncryptionEngine.RequiredMetadata[k] in meta
    requires "total_rounds" in meta && meta["total_rounds"] == JFloat(1.0)
    ensures var rec := JObj(map["extension" := JStr(".jpg"), "algorithm" := JStr("zip")]);
      var book := JObj(map["metadata" := JObj(meta), "rounds" := JObj(map["1" := rec]),
                           "version" := JStr("1.0")]);
      ValidFormat(book) && !EncryptionEngine.ValidatePasswordBook(book)
  {
    assert "total_rounds" == EncryptionEngine.RequiredMetadata[1];
  }

  /** Generating from data the engine accepts gives a ledger that both
      checks accept. */
  lemma GeneratedIsValid(data: Json, dumpsSorted: Json -> string, md5: string -> Text.HexDigest)
    requires EncryptionEngine.ValidatePasswordBook(data) && data.fields["metadata"].JObj?
    ensures var r := GeneratePasswordBook(data, dumpsSorted, md5);
      r.Ok? && ValidFormat(r.value.book) && EncryptionEngine.ValidatePasswordBook(r.value.book)
  {
    GenerateVerdict(data, dumpsSorted, md5);
    GenerateShape(data, dumpsSorted, md5);
    var g := GeneratePasswordBook(data, dumpsSorted, md5).value;
    var meta := data.fields["metadata"];
    var meta' := g.book.fields["metadata"];
    assert meta' == JObj(meta.fields["book_id" := JStr(g.id)]);
    assert "book_id" != "total_rounds" by { assert "book_id"[0] != "total_rounds"[0]; }
    assert meta'.fields["total_rounds"] == meta.fields["total_rounds"];
    forall k | 0 <= k < |EncryptionEngine.RequiredMetadata|
      ensures EncryptionEngine.RequiredMetadata[k] in meta'.fields
    {
      assert PyIn(EncryptionEngine.RequiredMetadata[k], meta) == Some(true);
    }
    assert g.book.fields["rounds"] == data.fields["rounds"];
    EngineValidIsFormat(g.book);
  }

  // ---------------------------------------------------------------------
  // The password-protected envelope

  newtype byte = b: int | 0 <= b < 256

  /** The foreign primitives: `derive` is PBKDF2-HMAC-SHA256 with 32 output
      bytes and 100000 iterations, `b64`/`unb64` the URL-safe base64 codec,
      `seal`/`open` Fernet encryption and decryption under a base64 key, and
      `dumps`/`loads` the JSON text codec. */
  datatype Crypto = Crypto(
    derive: (string, seq<byte>) -> seq<byte>,
    b64: seq<byte> -> string,
    unb64: string -> Option<seq<byte>>,
    seal: (string, string) -> seq<byte>,
    open: (string, seq<byte>) -> Option<string>,
    dumps: Json -> string,
    loads: string -> Option<Json>)

  /** The laws of the byte codecs the envelope's round trip relies on:
      base64 decodes what it encoded, and Fernet opens what it sealed under
      the same key. */
  ghost predicate Sound(c: Crypto)
  {
    (forall x :: c.unb64(c.b64(x)) == Some(x)) &&
    (forall k, m :: c.open(k, c.seal(k, m)) == Some(m))
  }

  /** JSON reads back what it wrote of `book`. No text codec can do so for
      every value, since `JFloat` ranges over all reals, so the law is asked
      only of the ledger at hand. */
  predicate ReadsBack(c: Crypto, book: Json)
  {
    c.loads(c.dumps(book)) == Some(book)
  }

  /** Bytes as the characters of the same code, base64's part in the codec
      `SoundMet` builds. */
  function ByteChars(x: seq<byte>): (r: string)
    ensures |r| == |x|
  {
    if x == [] then [] else [(x[0] as int) as char] + ByteChars(x[1..])
  }

  function CharBytes(s: string): Option<seq<byte>>
  {
    if s == [] then Some([])
    else if s[0] as int >= 256 then None
    else match CharBytes(s[1..])
      case None => None
      case Some(rest) => Some([(s[0] as int) as byte] + rest)
  }

  /** Each character as three bytes, big-endian, Fernet's part in it. */
  function CharTriples(m: string): seq<byte>
  {
    if m == [] then [] else Triple(m[0] as int) + CharTriples(m[1..])
  }

  /** A code below 0x110000 as three base-256 digits. */
  function Triple(n: int): (t: seq<byte>)
    requires 0 <= n < 0x11_0000
    ensures |t| == 3 && t[0] as int * 65536 + t[1] as int * 256 + t[2] as int == n
  {
    TripleDigits(n);
    [(n / 65536) as byte, (n / 256 % 256) as byte, (n % 256) as byte]
  }

  function TripleChars(t: seq<byte>): Option<string>
  {
    if t == [] then Some([])
    else if |t| < 3 then None
    else
      var n := t[0] as int * 65536 + t[1] as int * 256 + t[2] as int;
      if !(0 <= n < 0xD800 || 0xE000 <= n < 0x11_0000) then None
      else match TripleChars(t[3..])
        case None => None
        case Some(rest) => Some([n as char] + rest)
  }

  lemma {:induction false} ByteCharsBack(x: seq<byte>)
    ensures CharBytes(ByteChars(x)) == Some(x)
  {
    if x != [] {
      ByteCharsBack(x[1..]);
      var s := ByteChars(x);
      assert s[0] == (x[0] as int) as char && s[1..] == ByteChars(x[1..]);
      assert x == [x[0]] + x[1..];
    }
  }

  /** A code splits into three base-256 digits that join back to it. */
  lemma TripleDigits(n: int)
    requires 0 <= n
    ensures n / 65536 * 65536 + n / 256 % 256 * 256 + n % 256 == n
  {
    var q := n / 256;
    assert q * 256 + n % 256 == n;
    assert q / 256 * 256 + q % 256 == q;
    assert n / 65536 == q / 256;
  }

  lemma {:induction false} CharTriplesBack(m: string)
    ensures TripleChars(CharTriples(m)) == Some(m)
  {
    if m != [] {
      CharTriplesBack(m[1..]);
      var t := CharTriples(m);
      assert t[..3] == Triple(m[0] as int) && t[3..] == CharTriples(m[1..]);
      assert m == [m[0]] + m[1..];
    }
  }

  /** The laws can be met together, so `EnvelopeRoundTrip` and
      `SaveThenLoad` are not vacuous: a codec pairing bytes with characters
      and characters with byte triples is sound, and reads back a ledger. */
  lemma SoundMet(book: Json)
    ensures var c := Crypto((p: string, salt: seq<byte>) => salt, ByteChars, CharBytes,
                            (k: string, m: string) => CharTriples(m), (k: string, t: seq<byte>) => TripleChars(t),
                            (b: Json) => "", (text: string) => Some(book));
      Sound(c) && ReadsBack(c, book)
  {
    forall x: seq<byte> ensures CharBytes(ByteChars(x)) == Some(x) {
      ByteCharsBack(x);
    }
    forall m: string ensures TripleChars(CharTriples(m)) == Some(m) {
      CharTriplesBack(m);
    }
  }

  /** The Fernet key both directions derive from a password and a salt. */
  function KeyFor(c: Crypto, password: string, salt: seq<byte>): string
  {
    c.b64(c.derive(password, salt))
  }

  /** `encrypt_password_book(book, password)` with `salt` the 16 random
      bytes it draws. */
  function EncryptPasswordBook(c: Crypto, book: Json, password: string, salt: seq<byte>): Json
    requires |salt| == 16
  {
    var token := c.seal(KeyFor(c, password, salt), c.dumps(book));
    JObj(map["encrypted" := JBool(true), "salt" := JStr(c.b64(salt)),
             "data" := JStr(c.b64(token)), "version" := JStr(FormatVersion)])
  }

  datatype DecryptError = NotEncrypted | WrongPassword

  function DecryptMessage(e: DecryptError): string
  {
    match e
    case NotEncrypted => "密码本未加密"
    case WrongPassword => "解密密码本失败: 密码可能错误"
  }

  /** The bytes a base64 field of the envelope decodes to, or `None` when the
      field is missing, not a string, or not base64. */
  function Field(c: Crypto, env: Json, key: string): Option<seq<byte>>
  {
    var v := PyGet(env, key);
    if v.Some? && v.value.JStr? then c.unb64(v.value.s) else None
  }

  /** `decrypt_password_book(envelope, password)`: a falsy `encrypted` flag
      is reported as such; every other failure, raised anywhere, is the one
      generic message. */
  function DecryptPasswordBook(c: Crypto, env: Json, password: string): Result<Json, DecryptError>
  {
    if !env.JObj? then Err(WrongPassword)
    else if !Truthy(DictGet(env, "encrypted")) then Err(NotEncrypted)
    else
      match Field(c, env, "salt")
      case None => Err(WrongPassword)
      case Some(salt) =>
        match Field(c, env, "data")
        case None => Err(WrongPassword)
        case Some(token) =>
          match c.open(KeyFor(c, password, salt), token)
          case None => Err(WrongPassword)
          case Some(text) =>
            match c.loads(text)
            case None => Err(WrongPassword)
            case Some(book) => Ok(book)
  }

  /** The envelope has exactly its four keys, and the same password opens
      it to the ledger it sealed. */
  lemma EnvelopeRoundTrip(c: Crypto, book: Json, password: string, salt: seq<byte>)
    requires Sound(c) && ReadsBack(c, book) && |salt| == 16
    ensures var env := EncryptPasswordBook(c, book, password, salt);
      env.JObj? && env.fields.Keys == {"encrypted", "salt", "data", "version"} &&
      DecryptPasswordBook(c, env, password) == Ok(book)
  {
    var key := KeyFor(c, password, salt);
    var token := c.seal(key, c.dumps(book));
    var env := EncryptPasswordBook(c, book, password, salt);
    assert Field(c, env, "salt") == Some(salt);
    assert Field(c, env, "data") == Some(token);
    assert c.open(key, token) == Some(c.dumps(book));
  }

  /** Decryption fails with the "not encrypted" message exactly for a dict
      whose flag is missing or falsy; any other failure is the generic one. */
  lemma DecryptErrors(c: Crypto, env: Json, password: string)
    ensures var r := DecryptPasswordBook(c, env, password);
      (r == Err(NotEncrypted) <==> env.JObj? && !Truthy(DictGet(env, "encrypted"))) &&
      (r.Err? && r.error != NotEncrypted ==> r.error == WrongPassword)
  {
  }

  /** An envelope is no ledger: it fails the format check. */
  lemma EnvelopeIsNoLedger(c: Crypto, book: Json, password: string, salt: seq<byte>)
    requires |salt| == 16
    ensures !ValidFormat(EncryptPasswordBook(c, book, password, salt))
  {
    var env := EncryptPasswordBook(c, book, password, salt);
    assert "metadata" !in env.fields;
  }

  /** A plain ledger that also carries `"encrypted": true` passes the format
      check, so the decrypt page does try to decrypt it; having no salt, it
      fails with the generic message. */
  lemma FlaggedLedgerLoads(c: Crypto, meta: map<string, Json>, password: string)
    requires forall k :: 0 <= k < |EncryptionEngine.RequiredMetadata| ==> EncryptionEngine.RequiredMetadata[k] in meta
    requires "total_rounds" in meta && meta["total_rounds"] == JInt(1)
    ensures var rec := JObj(map["extension" := JStr(".jpg"), "algorithm" := JStr("zip")]);
      var book := JObj(map["metadata" := JObj(meta), "rounds" := JObj(map["1" := rec]),
                           "version" := JStr("1.0"), "encrypted" := JBool(true)]);
      ValidFormat(book) && Truthy(DictGet(book, "encrypted")) &&
      DecryptPasswordBook(c, book, password) == Err(WrongPassword)
  {
    assert "total_rounds" == EncryptionEngine.RequiredMetadata[1];
  }

  // ---------------------------------------------------------------------
  // save_password_book's file name

  /** `str(x)` inside an f-string: a string is itself; `show` renders the
      other values. */
  function Show(x: Json, show: Json -> string): string
  {
    if x.JStr? then x.s else show(x)
  }

  /** `book_id[:8]` formatted: the first eight characters of a string, or
      of a list rendered; other values cannot be sliced. */
  function IdPrefix(id: Json, show: Json -> string): Option<string>
  {
    match id
    case JStr(s) => Some(if |s| <= 8 then s else s[..8])
    case JArr(items) => Some(show(JArr(if |items| <= 8 then items else items[..8])))
    case _ => None
  }

  datatype SaveError = MissingField(key: string) | IdNotSliceable

  /** The name `save_password_book` picks when it is given none:
      timestamp, original name and the id's first eight characters. */
  function SaveName(book: Json, now: Clock.DateTime, show: Json -> string): Result<string, SaveError>
    requires Clock.ValidDateTime(now)
  {
    match PyGet(book, "metadata")
    case None => Err(MissingField("metadata"))
    case Some(meta) =>
      match PyGet(meta, "original_filename")
      case None => Err(MissingField("original_filename"))
      case Some(original) =>
        match PyGet(meta, "book_id")
        case None => Err(MissingField("book_id"))
        case Some(id) =>
          match IdPrefix(id, show)
          case None => Err(IdNotSliceable)
          case Some(prefix) => Ok(Clock.Format(now) + "_" + Show(original, show) + "_" + prefix + ".json")
  }

  /** A generated name is the timestamp, an underscore, the original name,
      another underscore and the id prefix, with ".json" at the end; a
      ledger that lacks the metadata, the original name or the id gets
      none. */
  lemma SaveNameShape(book: Json, now: Clock.DateTime, show: Json -> string)
    requires Clock.ValidDateTime(now)
    ensures RecordedId(book).None? ==> SaveName(book, now, show).Err?
    ensures PyGet(book, "metadata").Some? && PyGet(book.fields["metadata"], "original_filename").None? ==>
      SaveName(book, now, show).Err?
    ensures var r := SaveName(book, now, show);
      r.Ok? ==> (r.value[..15] == Clock.Format(now) && r.value[15] == '_' &&
                 r.value[|r.value| - 5..] == ".json")
  {
    var r := SaveName(book, now, show);
    if r.Ok? {
      var meta := PyGet(book, "metadata").value;
      var t := Clock.Format(now);
      var rest := Show(meta.fields["original_filename"], show) + "_" + IdPrefix(meta.fields["book_id"], show).value;
      assert r.value == t + ("_" + rest + ".json");
    }
  }

  /** A ledger whose original name and id are strings gets the name built
      from them, the id cut to eight characters. */
  lemma SaveNameOfStrings(meta: map<string, Json>, rest: map<string, Json>, original: string, id: string,
                          now: Clock.DateTime, show: Json -> string)
    requires Clock.ValidDateTime(now)
    requires "original_filename" in meta && meta["original_filename"] == JStr(original)
    requires "book_id" in meta && meta["book_id"] == JStr(id)
    ensures SaveName(JObj(rest["metadata" := JObj(meta)]), now, show) ==
      Ok(Clock.Format(now) + "_" + original + "_" + (if |id| <= 8 then id else id[..8]) + ".json")
  {
  }

  /** An envelope cannot be saved under a generated name. */
  lemma EnvelopeHasNoSaveName(c: Crypto, book: Json, password: string, salt: seq<byte>,
                              now: Clock.DateTime, show: Json -> string)
    requires |salt| == 16 && Clock.ValidDateTime(now)
    ensures SaveName(EncryptPasswordBook(c, book, password, salt), now, show) == Err(MissingField("metadata"))
  {
    assert "metadata" !in EncryptPasswordBook(c, book, password, salt).fields;
  }

  // ---------------------------------------------------------------------
  // Saving and loading ledger files

  datatype LoadError = Unreadable | InvalidFormat

  function LoadMessage(e: LoadError): string
  {
    match e
    case Unreadable => "加载密码本失败: "
    case InvalidFormat => "密码本格式无效"
  }

  /** `load_password_book(path)` over the files the process can read: a
      missing file or unparsable text fails, and so does a parsed value that
      fails the format check. */
  function LoadSpec(files: map<string, string>, path: string, loads: string -> Option<Json>): Result<Json, LoadError>
  {
    if path !in files then Err(Unreadable)
    else match loads(files[path])
      case None => Err(Unreadable)
      case Some(book) => if ValidFormat(book) then Ok(book) else Err(InvalidFormat)
  }

  /** Loading gives a ledger exactly when the file parses to a value the
      format check accepts, and a file holding an envelope is always
      refused. */
  lemma LoadVerdict(files: map<string, string>, path: string, c: Crypto, book: Json, password: string, salt: seq<byte>)
    requires |salt| == 16
    ensures LoadSpec(files, path, c.loads).Ok? <==>
      path in files && c.loads(files[path]).Some? && ValidFormat(c.loads(files[path]).value)
    ensures path in files && c.loads(files[path]) == Some(EncryptPasswordBook(c, book, password, salt)) ==>
      LoadSpec(files, path, c.loads) == Err(InvalidFormat)
  {
    if path in files && c.loads(files[path]) == Some(EncryptPasswordBook(c, book, password, salt)) {
      EnvelopeIsNoLedger(c, book, password, salt);
    }
  }

  class PasswordBookManager {
    /** The text files the manager can read and write, by path. */
    var files: map<string, string>

    constructor(initial: map<string, string>)
      ensures files == initial
    {
      files := initial;
    }

    /** `save_password_book(book, filename)`: the ledger's JSON text is
        written under the storage folder, at the given name or at the
        generated one; without a name, a ledger lacking the fields the name
        needs is not written. */
    method SavePasswordBook(book: Json, filename: Option<string>, now: Clock.DateTime,
                            c: Crypto, show: Json -> string) returns (r: Result<(string, string), SaveError>)
      requires Clock.ValidDateTime(now)
      modifies this
      ensures filename.Some? ==> r == Ok((Paths.Join(StorageDir, filename.value), filename.value))
      ensures filename.None? ==>
        (SaveName(book, now, show).Err? ==> r == Err(SaveName(book, now, show).error)) &&
        (SaveName(book, now, show).Ok? ==>
           r == Ok((Paths.Join(StorageDir, SaveName(book, now, show).value), SaveName(book, now, show).value)))
      ensures r.Ok? ==> files == old(files)[r.value.0 := c.dumps(book)]
      ensures r.Err? ==> files == old(files)
    {
      var name: string;
      if filename.Some? {
        name := filename.value;
      } else {
        var generated := SaveName(book, now, show);
        if generated.Err? {
          return Err(generated.error);
        }
        name := generated.value;
      }
      var path := Paths.Join(StorageDir, name);
      files := files[path := c.dumps(book)];
      return Ok((path, name));
    }

    /** `load_password_book(path)`. */
    method LoadPasswordBook(path: string, loads: string -> Option<Json>) returns (r: Result<Json, LoadError>)
      ensures r == LoadSpec(files, path, loads)
    {
      if path !in files {
        return Err(Unreadable);
      }
      var parsed := loads(files[path]);
      if parsed.None? {
        return Err(Unreadable);
      }
      if !ValidFormat(parsed.value) {
        return Err(InvalidFormat);
      }
      return Ok(parsed.value);
    }
  }

  /** A ledger that passes the format check, once saved, loads back as it
      was, with JSON text that reads back what it wrote. */
  lemma SaveThenLoad(files: map<string, string>, path: string, book: Json, c: Crypto)
    requires ReadsBack(c, book) && ValidFormat(book)
    ensures LoadSpec(files[path := c.dumps(book)], path, c.loads) == Ok(book)
  {
  }

  // ---------------------------------------------------------------------
  // merge_password_books

  /** What the merge keeps of one ledger. */
  datatype MergedEntry = MergedEntry(filename: string, originalFilename: Json, encryptionTime: Json,
                                     totalRounds: Json, rounds: Json)

  /** The merged ledger: its metadata (time, input count, file name by id)
      and the kept entries by id. */
  datatype Merged = Merged(mergeTime: string, totalFiles: nat, files: map<Json, string>, books: map<Json, MergedEntry>)

  /** A value Python can use as a dict key. */
  predicate Hashable(x: Json)
  {
    !x.JArr? && !x.JObj?
  }

  /** The id and the entry of one (filename, ledger) pair, or `None` when a
      lookup raises or the id cannot be a key. */
  function EntryOf(filename: string, book: Json): Option<(Json, MergedEntry)>
  {
    var meta := PyGet(book, "metadata");
    if meta.None? then None
    else
      var m := meta.value;
      var id := PyGet(m, "book_id");
      var original := PyGet(m, "original_filename");
      var time := PyGet(m, "encryption_time");
      var total := PyGet(m, "total_rounds");
      var rounds := PyGet(book, "rounds");
      if id.None? || original.None? || time.None? || total.None? || rounds.None? || !Hashable(id.value) then None
      else Some((id.value, MergedEntry(filename, original.value, time.value, total.value, rounds.value)))
  }

  /** The two dicts after the first `k` pairs, or `None` once one raised. */
  function MergeUpTo(books: seq<(string, Json)>, k: nat): Option<(map<Json, string>, map<Json, MergedEntry>)>
    requires k <= |books|
  {
    if k == 0 then Some((map[], map[]))
    else match MergeUpTo(books, k - 1)
      case None => None
      case Some((files, entries)) =>
        match EntryOf(books[k - 1].0, books[k - 1].1)
        case None => None
        case Some((id, e)) => Some((files[id := books[k - 1].0], entries[id := e]))
  }

  function MergeSpec(books: seq<(string, Json)>, now: string): Result<Merged, ()>
  {
    match MergeUpTo(books, |books|)
    case None => Err(())
    case Some((files, entries)) => Ok(Merged(now, |books|, files, entries))
  }

  /** `merge_password_books(books)`, with `now` the merge time. */
  method MergePasswordBooks(books: seq<(string, Json)>, now: string) returns (r: Result<Merged, ()>)
    ensures r == MergeSpec(books, now)
  {
    var files: map<Json, string> := map[];
    var entries: map<Json, MergedEntry> := map[];
    var i := 0;
    while i < |books|
      invariant 0 <= i <= |books|
      invariant MergeUpTo(books, i) == Some((files, entries))
    {
      var (name, book) := books[i];
      var e := EntryOf(name, book);
      if e.None? {
        assert MergeUpTo(books, i + 1).None?;
        MergeStaysFailed(books, i + 1, |books|);
        return Err(());
      }
      files := files[e.value.0 := name];
      entries := entries[e.value.0 := e.value.1];
      i := i + 1;
    }
    return Ok(Merged(now, |books|, files, entries));
  }

  lemma {:induction false} MergeStaysFailed(books: seq<(string, Json)>, k: nat, m: nat)
    requires k <= m <= |books| && MergeUpTo(books, k).None?
    ensures MergeUpTo(books, m).None?
    decreases m - k
  {
    if k < m {
      MergeStaysFailed(books, k + 1, m);
    }
  }

  /** Every one of the first `k` pairs yields an entry. */
  predicate AllEntries(books: seq<(string, Json)>, k: nat)
    requires k <= |books|
  {
    forall j :: 0 <= j < k ==> EntryOf(books[j].0, books[j].1).Some?
  }

  /** The id of pair `i`. */
  function IdAt(books: seq<(string, Json)>, i: nat): Json
    requires i < |books| && EntryOf(books[i].0, books[i].1).Some?
  {
    EntryOf(books[i].0, books[i].1).value.0
  }

  /** Pair `i` is the last among the first `k` with its id. */
  predicate LastWithId(books: seq<(string, Json)>, k: nat, i: nat)
    requires k <= |books| && AllEntries(books, k)
  {
    i < k && forall j :: i < j < k ==> IdAt(books, j) != IdAt(books, i)
  }

  /** The merge of the first `k` pairs fails exactly when one of them does. */
  lemma {:induction false} MergeUpToSome(books: seq<(string, Json)>, k: nat)
    requires k <= |books|
    ensures MergeUpTo(books, k).Some? <==> AllEntries(books, k)
  {
    if k > 0 {
      MergeUpToSome(books, k - 1);
    }
  }

  /** The ids of the first `k` pairs. */
  function IdSet(books: seq<(string, Json)>, k: nat): set<Json>
    requires k <= |books| && AllEntries(books, k)
  {
    set i | 0 <= i < k :: IdAt(books, i)
  }

  lemma IdSetStep(books: seq<(string, Json)>, k: nat)
    requires 0 < k <= |books| && AllEntries(books, k)
    ensures IdSet(books, k) == IdSet(books, k - 1) + {IdAt(books, k - 1)}
  {
    forall x | x in IdSet(books, k) ensures x in IdSet(books, k - 1) + {IdAt(books, k - 1)} {
      var i :| 0 <= i < k && x == IdAt(books, i);
      if i < k - 1 { assert x in IdSet(books, k - 1); }
    }
  }

  /** The ids the merge of the first `k` pairs holds are those pairs' ids. */
  lemma {:induction false} MergeUpToKeys(books: seq<(string, Json)>, k: nat)
    requires k <= |books| && AllEntries(books, k)
    ensures MergeUpTo(books, k).Some?
    ensures var (files, entries) := MergeUpTo(books, k).value;
      files.Keys == entries.Keys && files.Keys == IdSet(books, k)
  {
    MergeUpToSome(books, k);
    if k > 0 {
      MergeUpToKeys(books, k - 1);
      IdSetStep(books, k);
      var (files, entries) := MergeUpTo(books, k - 1).value;
      var (id, e) := EntryOf(books[k - 1].0, books[k - 1].1).value;
      assert MergeUpTo(books, k).value == (files[id := books[k - 1].0], entries[id := e]);
    }
  }

  /** Under the id of the last pair with it sit that pair's file name and
      entry. */
  lemma {:induction false} MergeUpToLast(books: seq<(string, Json)>, k: nat, i: nat)
    requires k <= |books| && AllEntries(books, k) && LastWithId(books, k, i)
    ensures MergeUpTo(books, k).Some?
    ensures var (files, entries) := MergeUpTo(books, k).value;
      IdAt(books, i) in files && IdAt(books, i) in entries &&
      files[IdAt(books, i)] == books[i].0 && entries[IdAt(books, i)] == EntryOf(books[i].0, books[i].1).value.1
  {
    MergeUpToSome(books, k);
    MergeUpToSome(books, k - 1);
    if i < k - 1 {
      assert IdAt(books, k - 1) != IdAt(books, i);
      assert LastWithId(books, k - 1, i);
      MergeUpToLast(books, k - 1, i);
    }
  }

  /** A merge fails exactly when some ledger lacks a field it copies. It
      counts every input, even when ids collide, holds exactly the inputs'
      ids, and keeps under each id the last ledger with that id. */
  lemma MergeEffect(books: seq<(string, Json)>, now: string)
    ensures MergeSpec(books, now).Ok? <==> AllEntries(books, |books|)
    ensures var r := MergeSpec(books, now);
      r.Ok? ==> (r.value.totalFiles == |books| && r.value.mergeTime == now &&
        r.value.files.Keys == r.value.books.Keys &&
        r.value.files.Keys == IdSet(books, |books|) &&
        forall i: nat :: LastWithId(books, |books|, i) ==>
          (r.value.files[IdAt(books, i)] == books[i].0 &&
           r.value.books[IdAt(books, i)] == EntryOf(books[i].0, books[i].1).value.1))
  {
    MergeUpToSome(books, |books|);
    if AllEntries(books, |books|) {
      MergeUpToKeys(books, |books|);
      forall i: nat | LastWithId(books, |books|, i)
        ensures var (files, entries) := MergeUpTo(books, |books|).value;
          files[IdAt(books, i)] == books[i].0 && entries[IdAt(books, i)] == EntryOf(books[i].0, books[i].1).value.1
      {
        MergeUpToLast(books, |books|, i);
      }
    }
  }
}
