/** The browser-side helpers of the upload pages: the password-strength
    score and its label, the "encryption strength" gauge, and the file-type
    and icon lookup. */
module Client {
  import Text
  import Paths

  // ---------------------------------------------------------------------
  // checkPasswordStrength

  predicate HasLower(p: string) { exists i :: 0 <= i < |p| && 'a' <= p[i] <= 'z' }
  predicate HasUpper(p: string) { exists i :: 0 <= i < |p| && 'A' <= p[i] <= 'Z' }
  predicate HasDigit(p: string) { exists i :: 0 <= i < |p| && '0' <= p[i] <= '9' }

  predicate IsAlnum(c: char)
  {
    'a' <= c <= 'z' || 'A' <= c <= 'Z' || '0' <= c <= '9'
  }

  predicate HasOther(p: string) { exists i :: 0 <= i < |p| && !IsAlnum(p[i]) }

  function Bonus(present: bool, points: nat): nat
  {
    if present then points else 0
  }

  /** The score of a non-empty password: 25 for eight characters or more, 15
      more for twelve or more, and 15 for each of the four character
      classes that occurs. */
  function StrengthScore(p: string): nat
  {
    if p == "" then 0
    else
      Bonus(|p| >= 8, 25) + Bonus(|p| >= 12, 15) + Bonus(HasLower(p), 15) +
      Bonus(HasUpper(p), 15) + Bonus(HasDigit(p), 15) + Bonus(HasOther(p), 15)
  }

  /** `checkPasswordStrength(password)`: the score, capped at 100. */
  method CheckPasswordStrength(password: string) returns (strength: nat)
    ensures strength == StrengthScore(password)
  {
    if password == "" {
      return 0;
    }
    strength := 0;
    if |password| >= 8 {
      strength := strength + 25;
    }
    if |password| >= 12 {
      strength := strength + 15;
    }
    if HasLower(password) {
      strength := strength + 15;
    }
    if HasUpper(password) {
      strength := strength + 15;
    }
    if HasDigit(password) {
      strength := strength + 15;
    }
    if HasOther(password) {
      strength := strength + 15;
    }
    StrengthCapUnreached(password);
    strength := if strength < 100 then strength else 100;
  }

  /** The uncapped score never exceeds 100, so the cap never binds. */
  lemma StrengthCapUnreached(p: string)
    ensures StrengthScore(p) <= 100
  {
  }

  /** The score is zero exactly for the empty password. */
  lemma StrengthZero(p: string)
    ensures StrengthScore(p) == 0 <==> p == ""
  {
    if p != "" {
      assert p[0] == p[0];
      if IsAlnum(p[0]) {
        if 'a' <= p[0] <= 'z' { assert HasLower(p); }
        else if 'A' <= p[0] <= 'Z' { assert HasUpper(p); }
        else { assert HasDigit(p); }
      } else {
        assert HasOther(p);
      }
    }
  }

  /** Appending characters never lowers the score. */
  lemma StrengthMonotone(p: string, q: string)
    ensures StrengthScore(p) <= StrengthScore(p + q)
  {
    if p != "" {
      var pq := p + q;
      if HasLower(p) { var i :| 0 <= i < |p| && 'a' <= p[i] <= 'z'; assert pq[i] == p[i]; }
      if HasUpper(p) { var i :| 0 <= i < |p| && 'A' <= p[i] <= 'Z'; assert pq[i] == p[i]; }
      if HasDigit(p) { var i :| 0 <= i < |p| && '0' <= p[i] <= '9'; assert pq[i] == p[i]; }
      if HasOther(p) { var i :| 0 <= i < |p| && !IsAlnum(p[i]); assert pq[i] == p[i]; }
    }
  }

  // ---------------------------------------------------------------------
  // getPasswordStrengthLabel

  datatype Label = Label(text: string, cls: string)

  /** `getPasswordStrengthLabel(strength)`. */
  function StrengthLabel(strength: int): Label
  {
    if strength < 40 then Label("弱", "danger")
    else if strength < 70 then Label("中等", "warning")
    else if strength < 90 then Label("强", "info")
    else Label("非常强", "success")
  }

  /** The position of a label on the scale, weakest first. */
  function LabelRank(l: Label): nat
  {
    if l.cls == "danger" then 0
    else if l.cls == "warning" then 1
    else if l.cls == "info" then 2
    else 3
  }

  /** A higher score never gets a weaker label. */
  lemma LabelMonotone(s: int, t: int)
    requires s <= t
    ensures LabelRank(StrengthLabel(s)) <= LabelRank(StrengthLabel(t))
  {
  }

  /** A password shorter than eight characters scores at most 60 and is
      labelled at most "中等"; one of twelve or more holding all four
      character classes scores 100 and is labelled "非常强". */
  lemma LabelOfPassword(p: string)
    ensures |p| < 8 ==> StrengthScore(p) <= 60 && LabelRank(StrengthLabel(StrengthScore(p))) <= 1
    ensures |p| >= 12 && HasLower(p) && HasUpper(p) && HasDigit(p) && HasOther(p) ==>
      StrengthScore(p) == 100 && StrengthLabel(StrengthScore(p)) == Label("非常强", "success")
  {
  }

  // ---------------------------------------------------------------------
  // calculateEncryptionStrength

  /** `calculateEncryptionStrength(rounds, algorithms)` for a list of
      `algorithmCount` algorithms. */
  function EncryptionStrength(rounds: int, algorithmCount: nat): (r: int)
    ensures r <= 100
    ensures r == 100 || r == 10 * rounds + 5 * algorithmCount
    ensures 10 * rounds + 5 * algorithmCount < 100 ==> r == 10 * rounds + 5 * algorithmCount
    ensures 10 * rounds + 5 * algorithmCount >= 100 ==> r == 100
  {
    var total := 10 * rounds + 5 * algorithmCount;
    if total < 100 then total else 100
  }

  /** More rounds or more algorithms never lower the gauge. */
  lemma EncryptionStrengthMonotone(r1: int, r2: int, a1: nat, a2: nat)
    requires r1 <= r2 && a1 <= a2
    ensures EncryptionStrength(r1, a1) <= EncryptionStrength(r2, a2)
  {
  }

  // ---------------------------------------------------------------------
  // getFileType and getFileIcon

  const TypeMap: map<string, string> := map[
    "txt" := "text", "pdf" := "pdf", "doc" := "word", "docx" := "word",
    "xls" := "excel", "xlsx" := "excel",
    "jpg" := "image", "jpeg" := "image", "png" := "image", "gif" := "image",
    "zip" := "archive", "tar" := "archive", "gz" := "archive", "bz2" := "archive",
    "mp3" := "audio", "mp4" := "video", "avi" := "video", "mov" := "video"]

  const IconMap: map<string, string> := map[
    "text" := "fa-file-text", "pdf" := "fa-file-pdf", "word" := "fa-file-word",
    "excel" := "fa-file-excel", "image" := "fa-file-image", "archive" := "fa-file-archive",
    "audio" := "fa-file-audio", "video" := "fa-file-video", "file" := "fa-file"]

  /** The last piece of `filename.split('.')`, lower-cased: the text after
      the last '.', or the whole name when there is none. */
  function TypeKey(filename: string): (k: string)
    ensures '.' !in filename ==> k == Text.Lower(filename)
    ensures '.' in filename ==> k == Text.Lower(filename[Paths.RFind(filename, '.') + 1..])
  {
    var i := Paths.RFind(filename, '.');
    assert '.' in filename ==> i >= 0 by {
      if '.' in filename {
        var j :| 0 <= j < |filename| && filename[j] == '.';
      }
    }
    assert i < 0 ==> filename[i + 1..] == filename;
    Text.Lower(filename[i + 1..])
  }

  /** `getFileType(filename)`: a table lookup, 'file' for an unknown key;
      every map value is truthy, so `||` falls back only for missing keys. */
  function FileType(filename: string): string
  {
    var k := TypeKey(filename);
    if k in TypeMap then TypeMap[k] else "file"
  }

  /** `getFileIcon(filename)`. */
  function FileIcon(filename: string): string
  {
    var t := FileType(filename);
    if t in IconMap then IconMap[t] else "fa-file"
  }

  /** Every type the lookup can give has an icon, and the icon is that
      entry; an unknown extension gives the generic icon. */
  lemma FileIconTotal(filename: string)
    ensures FileType(filename) in IconMap
    ensures FileType(filename) in TypeMap.Values + {"file"}
    ensures FileIcon(filename) == IconMap[FileType(filename)]
    ensures FileIcon(filename) in IconMap.Values
    ensures TypeKey(filename) !in TypeMap ==> FileType(filename) == "file" && FileIcon(filename) == "fa-file"
  {
    var k := TypeKey(filename);
    if k in TypeMap {
      assert TypeMap[k] in TypeMap.Values;
    }
    assert IconMap[FileType(filename)] in IconMap.Values;
  }
}
