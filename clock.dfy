/** Wall-clock readings and the `strftime("%Y%m%d_%H%M%S")` rendering that
    both upload names and ledger names begin with. The clock itself is not
    modelled: callers pass the reading in. */
module Clock {
  import Text

  /** A calendar reading with a four-digit year. */
  datatype DateTime = DateTime(year: nat, month: nat, day: nat, hour: nat, minute: nat, second: nat)

  predicate ValidDateTime(t: DateTime)
  {
    1000 <= t.year <= 9999 && 1 <= t.month <= 12 && 1 <= t.day <= 31 &&
    t.hour < 24 && t.minute < 60 && t.second < 62
  }

  /** `n` in exactly `width` decimal digits, most significant first. */
  function Digits(n: nat, width: nat): (s: string)
    requires n < Power10(width)
    ensures |s| == width
    ensures forall i :: 0 <= i < |s| ==> Text.IsDigit(s[i])
  {
    if width == 0 then "" else Digits(n / 10, width - 1) + [Text.DigitChar(n % 10)]
  }

  function Power10(k: nat): (p: nat)
    ensures p >= 1
  {
    if k == 0 then 1 else 10 * Power10(k - 1)
  }

  /** `strftime("%Y%m%d_%H%M%S")`. */
  function Format(t: DateTime): (s: string)
    requires ValidDateTime(t)
    ensures |s| == 15 && s[8] == '_'
    ensures forall i :: 0 <= i < 15 && i != 8 ==> Text.IsDigit(s[i])
  {
    Digits(t.year, 4) + Digits(t.month, 2) + Digits(t.day, 2) + "_" +
    Digits(t.hour, 2) + Digits(t.minute, 2) + Digits(t.second, 2)
  }

  /** The digit string of `Digits` reads back as the number it renders. */
  function DigitsValue(s: string): nat
    requires forall i :: 0 <= i < |s| ==> Text.IsDigit(s[i])
  {
    if s == "" then 0
    else
      assert Text.IsDigit(s[|s| - 1]);
      10 * DigitsValue(s[..|s| - 1]) + (s[|s| - 1] as int - '0' as int)
  }

  lemma {:induction false} DigitsRoundTrip(n: nat, width: nat)
    requires n < Power10(width)
    ensures DigitsValue(Digits(n, width)) == n
  {
    if width > 0 {
      var s := Digits(n, width);
      assert s[..|s| - 1] == Digits(n / 10, width - 1);
      DigitsRoundTrip(n / 10, width - 1);
    }
  }

  /** Distinct readings give distinct names. */
  lemma FormatInjective(t: DateTime, u: DateTime)
    requires ValidDateTime(t) && ValidDateTime(u)
    requires Format(t) == Format(u)
    ensures t == u
  {
    var s, r := Format(t), Format(u);
    assert s[0..4] == Digits(t.year, 4) && r[0..4] == Digits(u.year, 4);
    assert s[4..6] == Digits(t.month, 2) && r[4..6] == Digits(u.month, 2);
    assert s[6..8] == Digits(t.day, 2) && r[6..8] == Digits(u.day, 2);
    assert s[9..11] == Digits(t.hour, 2) && r[9..11] == Digits(u.hour, 2);
    assert s[11..13] == Digits(t.minute, 2) && r[11..13] == Digits(u.minute, 2);
    assert s[13..15] == Digits(t.second, 2) && r[13..15] == Digits(u.second, 2);
    DigitsRoundTrip(t.year, 4); DigitsRoundTrip(u.year, 4);
    DigitsRoundTrip(t.month, 2); DigitsRoundTrip(u.month, 2);
    DigitsRoundTrip(t.day, 2); DigitsRoundTrip(u.day, 2);
    DigitsRoundTrip(t.hour, 2); DigitsRoundTrip(u.hour, 2);
    DigitsRoundTrip(t.minute, 2); DigitsRoundTrip(u.minute, 2);
    DigitsRoundTrip(t.second, 2); DigitsRoundTrip(u.second, 2);
  }
}
