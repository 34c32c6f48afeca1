/** The web application's pure logic: matching an uploaded artifact to one
    of the uploaded ledgers, and choosing where an encode's round count
    comes from. The uploaded ledgers are a dict from upload name to parsed
    ledger; it is a sequence of pairs here, in the dict's insertion order. */
module App {
  import opened Wrappers
  import opened Json
  import Paths
  import Text
  import EncryptionEngine

  // ---------------------------------------------------------------------
  // remove_timestamp_prefix

  /** `n` ASCII digits start at `lo`. */
  predicate DigitsAt(s: string, lo: nat, n: nat)
  {
    lo + n <= |s| && forall k :: lo <= k < lo + n ==> Text.IsDigit(s[k])
  }

  /** The first alternative, `^\d{8}_\d{6}_`, at the front of `s`. */
  predicate DatedStamp(s: string)
  {
    |s| >= 16 && DigitsAt(s, 0, 8) && s[8] == '_' && DigitsAt(s, 9, 6) && s[15] == '_'
  }

  /** The second alternative, `\d{14}_`, at the front of `s`. */
  predicate PackedStamp(s: string)
  {
    |s| >= 15 && DigitsAt(s, 0, 14) && s[14] == '_'
  }

  /** `re.sub` of the two alternatives over `s`, scanning left to right:
      the anchored alternative is tried only at the very start of the
      string, a match is deleted and scanning resumes after it, and a
      position where neither matches keeps its character. */
  function Scrub(s: string, atStart: bool): (r: string)
    ensures |r| <= |s|
    ensures '_' !in s ==> r == s
    decreases |s|
  {
    if atStart && DatedStamp(s) then Scrub(s[16..], false)
    else if PackedStamp(s) then Scrub(s[15..], false)
    else if s == "" then ""
    else
      assert '_' !in s ==> '_' !in s[1..];
      [s[0]] + Scrub(s[1..], false)
  }

  /** `remove_timestamp_prefix(filename)`. */
  function RemoveTimestampPrefix(filename: string): string
  {
    Scrub(filename, true)
  }

  /** A leading date and time is removed. */
  lemma RemoveTimestampDated()
    ensures RemoveTimestampPrefix("20241102_143000_a") == "a"
  {
    var t := "20241102_143000_a";
    assert DatedStamp(t);
    assert t[16..] == "a";
    assert Scrub("a", false) == "a";
  }

  /** A packed timestamp in the middle of a name is removed too. */
  lemma RemoveTimestampPacked()
    ensures RemoveTimestampPrefix("x20241102143000_y") == "xy"
  {
    var s := "x20241102143000_y";
    assert !Text.IsDigit(s[0]);
    assert !DatedStamp(s) && !PackedStamp(s);
    var rest := s[1..];
    assert rest == "20241102143000_y";
    assert PackedStamp(rest);
    assert rest[15..] == "y";
    assert Scrub("y", false) == "y";
  }

  /** Stripping never lengthens a name and leaves a name without '_' as it
      is. */
  lemma RemoveTimestampShape(filename: string)
    ensures |RemoveTimestampPrefix(filename)| <= |filename|
    ensures '_' !in filename ==> RemoveTimestampPrefix(filename) == filename
  {
  }

  // ---------------------------------------------------------------------
  // match_filename_prefix

  /** `match_filename_prefix(encrypted_base, original_base)`. */
  predicate MatchFilenamePrefix(encryptedBase: string, originalBase: string)
  {
    originalBase != "" && RemoveTimestampPrefix(encryptedBase) == RemoveTimestampPrefix(originalBase)
  }

  /** The prefix test never holds for an empty original base, is symmetric
      between non-empty bases, and holds for equal non-empty ones. */
  lemma MatchFilenamePrefixProps(a: string, b: string)
    ensures !MatchFilenamePrefix(a, "")
    ensures a != "" && b != "" ==> (MatchFilenamePrefix(a, b) <==> MatchFilenamePrefix(b, a))
    ensures a != "" ==> MatchFilenamePrefix(a, a)
  {
  }

  // ---------------------------------------------------------------------
  // Reading a ledger's names

  /** `book.get('metadata', {}).get(key, '')`; `None` when either `get`
      is called on something other than a dict and raises. */
  function MetaValue(book: Json, key: string): (r: Option<Json>)
    ensures r.Some? <==> book.JObj? && ("metadata" in book.fields ==> book.fields["metadata"].JObj?)
  {
    if !book.JObj? then None
    else
      var meta := if "metadata" in book.fields then book.fields["metadata"] else JObj(map[]);
      if !meta.JObj? then None
      else Some(if key in meta.fields then meta.fields[key] else JStr(""))
  }

  /** `os.path.splitext(v)[0] if v else ''`; `None` when a truthy `v` is
      not a string and `splitext` raises. */
  function BaseOf(v: Json): (r: Option<string>)
    ensures !Truthy(v) ==> r == Some("")
    ensures r.None? <==> Truthy(v) && !v.JStr?
    ensures Truthy(v) && v.JStr? ==> r.Some? && r.value + Paths.Ext(v.s) == v.s
  {
    if !Truthy(v) then Some("")
    else if v.JStr? then Some(Paths.Stem(v.s))
    else None
  }

  /** The recorded base of a ledger's name `key`, when reading it does not raise. */
  function RecordedBase(book: Json, key: string): Option<string>
  {
    match MetaValue(book, key)
    case None => None
    case Some(v) => BaseOf(v)
  }

  // ---------------------------------------------------------------------
  // First-match search

  /** The result of scanning candidates in order, each answering "matches",
      "does not match" or "raises" (`None`). */
  datatype Search = Found(index: nat) | NotFound | Raised(index: nat)

  /** The scan from candidate `i` on. */
  function FirstFrom(vs: seq<Option<bool>>, i: nat): (r: Search)
    requires i <= |vs|
    ensures r.Found? ==> (i <= r.index < |vs| && vs[r.index] == Some(true) &&
                          forall j :: i <= j < r.index ==> vs[j] == Some(false))
    ensures r.Raised? ==> (i <= r.index < |vs| && vs[r.index].None? &&
                           forall j :: i <= j < r.index ==> vs[j] == Some(false))
    ensures r.NotFound? <==> forall j :: i <= j < |vs| ==> vs[j] == Some(false)
    decreases |vs| - i
  {
    if i == |vs| then NotFound
    else match vs[i]
      case None => Raised(i)
      case Some(true) => Found(i)
      case Some(false) => FirstFrom(vs, i + 1)
  }

  function First(vs: seq<Option<bool>>): Search
  {
    FirstFrom(vs, 0)
  }

  /** The scan stops at the first candidate that does not answer "does not
      match": it is found there when that one matches. */
  lemma FirstIsFirst(vs: seq<Option<bool>>, i: nat)
    requires i < |vs| && forall j :: 0 <= j < i ==> vs[j] == Some(false)
    ensures vs[i] == Some(true) ==> First(vs) == Found(i)
    ensures vs[i].None? ==> First(vs) == Raised(i)
  {
    var r := First(vs);
    assert r.NotFound? ==> vs[i] == Some(false);
  }

  /** The (filename, book) pair a search points at; Python's `(None, None)`
      when it found none. */
  function Picked(pairs: seq<(string, Json)>, s: Search): (Option<string>, Option<Json>)
  {
    if s.Found? && s.index < |pairs| then (Some(pairs[s.index].0), Some(pairs[s.index].1)) else (None, None)
  }

  // ---------------------------------------------------------------------
  // find_matching_password_book

  /** The six tests of the enhanced matcher, for artifact name `enc` and a
      candidate named `pbName` whose recorded bases are `originalBase` and
      `finalBase` and whose recorded final name is `finalValue`. */
  function MatchTests(enc: string, pbName: string, originalBase: string, finalValue: Json, finalBase: string): seq<bool>
  {
    var encBase := Paths.Stem(enc);
    [ finalValue == JStr(enc),
      encBase == finalBase,
      originalBase != "" && Text.Contains(enc, originalBase),
      Text.Contains(pbName, encBase),
      originalBase != "" && Text.Contains(pbName, originalBase),
      MatchFilenamePrefix(encBase, originalBase) ]
  }

  /** `any(matches)` for one candidate, or `None` when reading its names raises. */
  function EnhancedVerdict(enc: string, pbName: string, book: Json): Option<bool>
  {
    match RecordedBase(book, "original_filename")
    case None => None
    case Some(originalBase) =>
      match MetaValue(book, "final_filename")
      case None => None
      case Some(finalValue) =>
        match BaseOf(finalValue)
        case None => None
        case Some(finalBase) =>
          Some(true in MatchTests(enc, pbName, originalBase, finalValue, finalBase))
  }

  /** The enhanced verdict of each candidate, in order. */
  function EnhancedVerdicts(enc: string, pairs: seq<(string, Json)>): (vs: seq<Option<bool>>)
  {
    seq(|pairs|, i requires 0 <= i < |pairs| => EnhancedVerdict(enc, pairs[i].0, pairs[i].1))
  }

  /** `find_matching_password_book(encrypted_filename, books)`: the first
      candidate, in order, passing any of the six tests. A candidate whose
      names cannot be read raises out of the call; that is `Raised`. */
  method FindMatchingPasswordBook(enc: string, pairs: seq<(string, Json)>) returns (r: Search)
    ensures r == First(EnhancedVerdicts(enc, pairs))
  {
    ghost var vs := EnhancedVerdicts(enc, pairs);
    var i := 0;
    while i < |pairs|
      invariant 0 <= i <= |pairs|
      invariant FirstFrom(vs, i) == First(vs)
    {
      var v := EnhancedVerdict(enc, pairs[i].0, pairs[i].1);
      if v.None? {
        return Raised(i);
      }
      if v.value {
        return Found(i);
      }
      i := i + 1;
    }
    return NotFound;
  }

  /** A candidate whose recorded final name is the artifact's name matches,
      so the search does not come back empty-handed. */
  lemma ExactFinalNameFound(enc: string, pairs: seq<(string, Json)>, i: nat)
    requires i < |pairs| && MetaValue(pairs[i].1, "final_filename") == Some(JStr(enc))
    requires RecordedBase(pairs[i].1, "original_filename").Some?
    ensures EnhancedVerdict(enc, pairs[i].0, pairs[i].1) == Some(true)
    ensures First(EnhancedVerdicts(enc, pairs)) != NotFound
  {
    var vs := EnhancedVerdicts(enc, pairs);
    assert vs[i] == Some(true);
  }

  /** Which test fires does not matter: an earlier candidate passing only
      the containment test wins over a later one whose final name is the
      artifact's name. */
  lemma EarlierCandidateWins(enc: string, pairs: seq<(string, Json)>, i: nat, k: nat)
    requires i < k < |pairs| && forall j :: 0 <= j < i ==> EnhancedVerdict(enc, pairs[j].0, pairs[j].1) == Some(false)
    requires EnhancedVerdict(enc, pairs[i].0, pairs[i].1) == Some(true)
    requires MetaValue(pairs[k].1, "final_filename") == Some(JStr(enc))
    ensures First(EnhancedVerdicts(enc, pairs)) == Found(i)
  {
    FirstIsFirst(EnhancedVerdicts(enc, pairs), i);
  }

  // ---------------------------------------------------------------------
  // simple_password_book_match

  /** The containment tests of the simple matcher, or `None` when reading
      the candidate's original name raises. */
  function SimpleVerdict(enc: string, pbName: string, book: Json): Option<bool>
  {
    var encBase := Paths.Stem(enc);
    match RecordedBase(book, "original_filename")
    case None => None
    case Some(originalBase) =>
      Some(Text.Contains(originalBase, encBase) || Text.Contains(encBase, originalBase) ||
           Text.Contains(pbName, encBase))
  }

  /** The simple verdict of each candidate, in order. */
  function SimpleVerdicts(enc: string, pairs: seq<(string, Json)>): (vs: seq<Option<bool>>)
  {
    seq(|pairs|, i requires 0 <= i < |pairs| => SimpleVerdict(enc, pairs[i].0, pairs[i].1))
  }

  /** `simple_password_book_match(encrypted_filename, books)`. */
  method SimplePasswordBookMatch(enc: string, pairs: seq<(string, Json)>) returns (r: Search)
    ensures r == First(SimpleVerdicts(enc, pairs))
  {
    ghost var vs := SimpleVerdicts(enc, pairs);
    var i := 0;
    while i < |pairs|
      invariant 0 <= i <= |pairs|
      invariant FirstFrom(vs, i) == First(vs)
    {
      var v := SimpleVerdict(enc, pairs[i].0, pairs[i].1);
      if v.None? {
        return Raised(i);
      }
      if v.value {
        return Found(i);
      }
      i := i + 1;
    }
    return NotFound;
  }

  /** A ledger that records no original name has base "", which every
      artifact base contains: it matches every artifact. */
  lemma NamelessBookMatchesAll(enc: string, pbName: string, book: Json)
    requires book.JObj? && "metadata" in book.fields && book.fields["metadata"].JObj?
    requires "original_filename" !in book.fields["metadata"].fields
    ensures SimpleVerdict(enc, pbName, book) == Some(true)
  {
    Text.ContainsEmpty(Paths.Stem(enc));
  }

  // ---------------------------------------------------------------------
  // The matching cascade of the decrypt page

  /** Python's `if matched_pb:` on a ledger variable that may be `None`. */
  predicate Held(pb: Option<Json>)
  {
    pb.Some? && Truthy(pb.value)
  }

  /** Whether each candidate holds `book`, in order. */
  function EqualVerdicts(pairs: seq<(string, Json)>, book: Json): (vs: seq<Option<bool>>)
  {
    seq(|pairs|, i requires 0 <= i < |pairs| => Some(pairs[i].1 == book))
  }

  /** `", ".join(names)`. */
  function JoinNames(names: seq<string>): string
  {
    if names == [] then ""
    else if |names| == 1 then names[0]
    else JoinNames(names[..|names| - 1]) + ", " + names[|names| - 1]
  }

  /** The candidates' names, in order. */
  function Names(pairs: seq<(string, Json)>): (r: seq<string>)
  {
    seq(|pairs|, i requires 0 <= i < |pairs| => pairs[i].0)
  }

  /** How the cascade ends for one artifact: a ledger (and the name it was
      found under), the failure entry's message, or an exception out of a
      matcher. */
  datatype Outcome = Matched(name: Option<string>, book: Json) | Unmatched(message: string) | Aborted

  function UnmatchedMessage(enc: string, pairs: seq<(string, Json)>): string
  {
    "未找到匹配的密码本。文件: " + enc + "，可用密码本: " + JoinNames(Names(pairs))
  }

  /** Step 2's result: the simple matcher's ledger and, when it is truthy,
      the name of the first candidate equal to it; otherwise the name from
      step 1 stays. */
  function Recovered(pairs: seq<(string, Json)>, name1: Option<string>, s2: Search): (Option<string>, Option<Json>)
  {
    var pb2 := Picked(pairs, s2).1;
    if Held(pb2) then
      var k := First(EqualVerdicts(pairs, pb2.value));
      (if k.Found? then Picked(pairs, k).0 else name1, pb2)
    else (name1, pb2)
  }

  /** The three steps for artifact `enc` among `fileCount` artifacts: the
      enhanced matcher; then, when it gave no truthy ledger, the simple
      matcher; then, when there is still none and there is exactly one
      artifact and one ledger, that ledger. */
  function Cascade(enc: string, pairs: seq<(string, Json)>, fileCount: nat): Outcome
  {
    match FirstTwoSteps(enc, pairs)
    case None => Aborted
    case Some((name2, pb2)) =>
      var (name3, pb3) :=
        if !Held(pb2) && fileCount == 1 && |pairs| == 1 then (Some(pairs[0].0), Some(pairs[0].1))
        else (name2, pb2);
      if Held(pb3) then Matched(name3, pb3.value) else Unmatched(UnmatchedMessage(enc, pairs))
  }

  /** Steps 1 and 2: the name and ledger they end with, or `None` when a
      matcher raises. */
  function FirstTwoSteps(enc: string, pairs: seq<(string, Json)>): Option<(Option<string>, Option<Json>)>
  {
    var s1 := First(EnhancedVerdicts(enc, pairs));
    if s1.Raised? then None
    else
      var (name1, pb1) := Picked(pairs, s1);
      if Held(pb1) then Some((name1, pb1))
      else
        var s2 := First(SimpleVerdicts(enc, pairs));
        if s2.Raised? then None else Some(Recovered(pairs, name1, s2))
  }

  /** A truthy ledger recovered in step 2 comes with the name of a
      candidate holding it. */
  lemma RecoveredSound(pairs: seq<(string, Json)>, name1: Option<string>, s2: Search)
    ensures var (name, pb) := Recovered(pairs, name1, s2);
      Held(pb) ==> name.Some? && (name.value, pb.value) in pairs
  {
    var pb2 := Picked(pairs, s2).1;
    if Held(pb2) {
      var vs := EqualVerdicts(pairs, pb2.value);
      assert vs[s2.index] == Some(true);
      var k := First(vs);
      assert k.Found?;
      assert pairs[k.index] == (pairs[k.index].0, pb2.value);
    }
  }

  /** The name of the first candidate equal to `book`, or `fallback` when
      none is. */
  method RecoverName(pairs: seq<(string, Json)>, book: Json, fallback: Option<string>) returns (name: Option<string>)
    ensures var s := First(EqualVerdicts(pairs, book));
      name == if s.Found? then Picked(pairs, s).0 else fallback
  {
    name := fallback;
    var i := 0;
    while i < |pairs|
      invariant 0 <= i <= |pairs|
      invariant FirstFrom(EqualVerdicts(pairs, book), i) == First(EqualVerdicts(pairs, book))
    {
      if pairs[i].1 == book {
        name := Some(pairs[i].0);
        return;
      }
      i := i + 1;
    }
  }

  /** Steps 1 and 2 of the cascade. */
  method MatchFirstTwo(enc: string, pairs: seq<(string, Json)>) returns (r: Option<(Option<string>, Option<Json>)>)
    ensures r == FirstTwoSteps(enc, pairs)
  {
    var s1 := FindMatchingPasswordBook(enc, pairs);
    if s1.Raised? {
      return None;
    }
    var matchedName, matchedPb := Picked(pairs, s1).0, Picked(pairs, s1).1;
    if !Held(matchedPb) {
      var s2 := SimplePasswordBookMatch(enc, pairs);
      if s2.Raised? {
        return None;
      }
      matchedPb := Picked(pairs, s2).1;
      if Held(matchedPb) {
        matchedName := RecoverName(pairs, matchedPb.value, matchedName);
      }
    }
    return Some((matchedName, matchedPb));
  }

  /** The cascade of `decrypt_config` for one artifact, reassigning the
      matched ledger and its name across the three steps. */
  method MatchForDecrypt(enc: string, pairs: seq<(string, Json)>, fileCount: nat) returns (r: Outcome)
    ensures r == Cascade(enc, pairs, fileCount)
  {
    var steps := MatchFirstTwo(enc, pairs);
    if steps.None? {
      return Aborted;
    }
    var (matchedName, matchedPb) := steps.value;
    if !Held(matchedPb) && fileCount == 1 && |pairs| == 1 {
      matchedName := Some(pairs[0].0);
      matchedPb := Some(pairs[0].1);
    }
    if !Held(matchedPb) {
      return Unmatched(UnmatchedMessage(enc, pairs));
    }
    return Matched(matchedName, matchedPb.value);
  }

  /** A matched ledger is truthy and is one of the uploaded ledgers under
      the name it is reported with. */
  lemma CascadeSound(enc: string, pairs: seq<(string, Json)>, fileCount: nat)
    ensures var r := Cascade(enc, pairs, fileCount);
      r.Matched? ==> Truthy(r.book) && r.name.Some? && (r.name.value, r.book) in pairs
  {
    var s1 := First(EnhancedVerdicts(enc, pairs));
    if !s1.Raised? && !Held(Picked(pairs, s1).1) {
      RecoveredSound(pairs, Picked(pairs, s1).0, First(SimpleVerdicts(enc, pairs)));
    }
  }

  /** A truthy ledger from the enhanced matcher is the cascade's answer. */
  lemma CascadePrefersEnhanced(enc: string, pairs: seq<(string, Json)>, fileCount: nat)
    requires First(EnhancedVerdicts(enc, pairs)).Found?
    requires Truthy(pairs[First(EnhancedVerdicts(enc, pairs)).index].1)
    ensures var i := First(EnhancedVerdicts(enc, pairs)).index;
      Cascade(enc, pairs, fileCount) == Matched(Some(pairs[i].0), pairs[i].1)
  {
  }

  /** One artifact and one truthy ledger always pair up, unless a matcher
      raises. */
  lemma CascadeSolePair(enc: string, name: string, book: Json)
    requires Truthy(book)
    ensures var r := Cascade(enc, [(name, book)], 1);
      r.Aborted? || r == Matched(Some(name), book)
  {
    var pairs := [(name, book)];
    var s1 := First(EnhancedVerdicts(enc, pairs));
    var s2 := First(SimpleVerdicts(enc, pairs));
    if s2.Found? {
      var vs := EqualVerdicts(pairs, book);
      assert vs[0] == Some(true);
      assert First(vs) == Found(0);
    }
  }

  /** The cascade fails, listing every ledger, exactly when no step supplies
      a truthy ledger. */
  lemma CascadeUnmatched(enc: string, pairs: seq<(string, Json)>, fileCount: nat)
    ensures var r := Cascade(enc, pairs, fileCount);
      r.Unmatched? ==> r.message == UnmatchedMessage(enc, pairs)
    ensures var s1 := First(EnhancedVerdicts(enc, pairs));
      var s2 := First(SimpleVerdicts(enc, pairs));
      !s1.Raised? && !s2.Raised? ==>
        (Cascade(enc, pairs, fileCount).Unmatched? <==>
          !Held(Picked(pairs, s1).1) && !Held(Picked(pairs, s2).1) &&
          !(fileCount == 1 && |pairs| == 1 && Truthy(pairs[0].1)))
  {
  }

  // ---------------------------------------------------------------------
  // Round source of the encrypt page

  /** The round count of `encrypt_config`: the seed is used when the method
      is 'specific_code' and the stripped code is not empty, the manual
      count otherwise. */
  function ChooseRounds(roundsMethod: string, manual: int, code: string, md5: string -> Text.HexDigest): int
  {
    var specific := Text.Strip(code);
    if roundsMethod == "specific_code" && specific != "" then
      EncryptionEngine.CalculateRounds(Some(specific), manual, md5)
    else EncryptionEngine.CalculateRounds(None, manual, md5)
  }

  /** The seed decides the count exactly in the 'specific_code' case with a
      code that is not all whitespace; otherwise the manual count is
      clamped into 1 .. 10. */
  lemma ChooseRoundsSource(roundsMethod: string, manual: int, code: string, md5: string -> Text.HexDigest)
    ensures var r := ChooseRounds(roundsMethod, manual, code, md5);
      1 <= r <= 10 &&
      (roundsMethod == "specific_code" && !Text.AllSpace(code) ==>
        r == EncryptionEngine.RoundsFromDigest(md5(Text.Strip(code)))) &&
      (!(roundsMethod == "specific_code" && !Text.AllSpace(code)) ==>
        r == if manual < 1 then 1 else if manual > 10 then 10 else manual)
  {
    Text.StripEmpty(code);
    if Text.Strip(code) != "" {
      Text.StripNotBlank(code);
      Text.StripEmpty(Text.Strip(code));
    }
  }
}
