/** The name the scraper gives the exported file when it moves it out of the downloads
    folder: "redbeam_data_" followed by the local time as YYYYMMDD_HHMMSS and ".csv". */
module Archive {
  import opened Options

  /** A wall-clock time, as `datetime.now()` reports it, to the second. */
  datatype Stamp = Stamp(year: int, month: int, day: int, hour: int, minute: int, second: int)
  {
    predicate Valid() {
      1 <= year <= 9999 && 1 <= month <= 12 && 1 <= day <= 31
      && 0 <= hour <= 23 && 0 <= minute <= 59 && 0 <= second <= 59
    }
  }

  const Prefix: string := "redbeam_data_"
  const Suffix: string := ".csv"

  /** The length of every archive name: prefix, 8 date digits, '_', 6 time digits, suffix. */
  const NameLength: nat := 32

  function DigitChar(d: int): (c: char)
    requires 0 <= d <= 9
    ensures IsDigit(c) && DigitValue(c) == d
  {
    (48 + d) as char
  }

  predicate IsDigit(c: char) {
    '0' <= c <= '9'
  }

  function DigitValue(c: char): int
    requires IsDigit(c)
  {
    c as int - 48
  }

  /** A number below 100 as two digits, zero-padded (strftime's `%m`, `%d`, `%H`, `%M`, `%S`). */
  function Two(n: int): (s: string)
    requires 0 <= n <= 99
    ensures |s| == 2 && IsDigit(s[0]) && IsDigit(s[1])
  {
    [DigitChar(n / 10), DigitChar(n % 10)]
  }

  /** A year as four digits, zero-padded (strftime's `%Y`). */
  function Four(n: int): (s: string)
    requires 0 <= n <= 9999
    ensures |s| == 4 && forall i :: 0 <= i < 4 ==> IsDigit(s[i])
  {
    var tens := n / 10;
    var hundreds := tens / 10;
    [DigitChar(hundreds / 10), DigitChar(hundreds % 10), DigitChar(tens % 10), DigitChar(n % 10)]
  }

  /** The value of the two digits at `i`. */
  function Num2(s: string, i: nat): int
    requires i + 2 <= |s| && IsDigit(s[i]) && IsDigit(s[i + 1])
  {
    10 * DigitValue(s[i]) + DigitValue(s[i + 1])
  }

  /** The value of the four digits at `i`. */
  function Num4(s: string, i: nat): int
    requires i + 4 <= |s| && forall k :: i <= k < i + 4 ==> IsDigit(s[k])
  {
    100 * Num2(s, i) + Num2(s, i + 2)
  }

  lemma TwoValue(n: int)
    requires 0 <= n <= 99
    ensures Num2(Two(n), 0) == n
  {
  }

  lemma FourValue(n: int)
    requires 0 <= n <= 9999
    ensures Num4(Four(n), 0) == n
  {
    var tens := n / 10;
    var hundreds := tens / 10;
    assert n == 10 * tens + n % 10;
    assert tens == 10 * hundreds + tens % 10;
    assert hundreds == 10 * (hundreds / 10) + hundreds % 10;
    var s := Four(n);
    assert Num2(s, 0) == hundreds;
    assert Num2(s, 2) == 10 * (tens % 10) + n % 10;
  }

  /** The archive name for a time. */
  function ArchiveName(t: Stamp): (name: string)
    requires t.Valid()
    ensures |name| == NameLength
    ensures name[..|Prefix|] == Prefix && name[|name| - |Suffix|..] == Suffix
    ensures name[21] == '_'
  {
    Prefix + Four(t.year) + Two(t.month) + Two(t.day) + "_" + Two(t.hour) + Two(t.minute) + Two(t.second)
    + Suffix
  }

  /** Whether the characters from `lo` up to `hi` are all digits. */
  predicate DigitsBetween(s: string, lo: nat, hi: nat)
    requires hi <= |s|
  {
    forall k :: lo <= k < hi ==> IsDigit(s[k])
  }

  /** Reads a time back out of an archive name; `None` for any other name. */
  function ParseArchiveName(name: string): (r: Option<Stamp>)
    ensures r.Some? ==> r.value.Valid()
  {
    if |name| != NameLength || name[..13] != Prefix || name[21] != '_' || name[28..] != Suffix
       || !DigitsBetween(name, 13, 21) || !DigitsBetween(name, 22, 28)
    then None
    else
      var t := Stamp(Num4(name, 13), Num2(name, 17), Num2(name, 19),
                     Num2(name, 22), Num2(name, 24), Num2(name, 26));
      if t.Valid() then Some(t) else None
  }

  /** Every archive name reads back as the time it was made from. */
  lemma {:induction false} ParseArchiveNameInverts(t: Stamp)
    requires t.Valid()
    ensures ParseArchiveName(ArchiveName(t)) == Some(t)
  {
    var name := ArchiveName(t);
    assert name[13..17] == Four(t.year);
    assert name[17..19] == Two(t.month);
    assert name[19..21] == Two(t.day);
    assert name[22..24] == Two(t.hour);
    assert name[24..26] == Two(t.minute);
    assert name[26..28] == Two(t.second);
    assert Num4(name, 13) == Num4(Four(t.year), 0);
    assert Num2(name, 17) == Num2(Two(t.month), 0);
    assert Num2(name, 19) == Num2(Two(t.day), 0);
    assert Num2(name, 22) == Num2(Two(t.hour), 0);
    assert Num2(name, 24) == Num2(Two(t.minute), 0);
    assert Num2(name, 26) == Num2(Two(t.second), 0);
    FourValue(t.year);
    TwoValue(t.month);
    TwoValue(t.day);
    TwoValue(t.hour);
    TwoValue(t.minute);
    TwoValue(t.second);
  }

  /** Two different times never give the same archive name. */
  lemma ArchiveNameInjective(t: Stamp, u: Stamp)
    requires t.Valid() && u.Valid() && ArchiveName(t) == ArchiveName(u)
    ensures t == u
  {
    ParseArchiveNameInverts(t);
    ParseArchiveNameInverts(u);
  }

  /** A name that reads back as a time is exactly that time's archive name. */
  lemma {:induction false} ParsedNameIsArchiveName(name: string)
    requires ParseArchiveName(name).Some?
    ensures ArchiveName(ParseArchiveName(name).value) == name
  {
    var t := ParseArchiveName(name).value;
    TwoOfDigits(name, 17);
    TwoOfDigits(name, 19);
    TwoOfDigits(name, 22);
    TwoOfDigits(name, 24);
    TwoOfDigits(name, 26);
    FourOfDigits(name, 13);
    var made := ArchiveName(t);
    assert made[..13] == name[..13];
    assert made[13..17] == name[13..17];
    assert made[17..19] == name[17..19];
    assert made[19..21] == name[19..21];
    assert made[22..24] == name[22..24];
    assert made[24..26] == name[24..26];
    assert made[26..28] == name[26..28];
    assert made[28..] == name[28..];
    assert made == name[..13] + name[13..17] + name[17..19] + name[19..21] + [name[21]]
                   + name[22..24] + name[24..26] + name[26..28] + name[28..];
    assert name == name[..13] + name[13..17] + name[17..19] + name[19..21] + [name[21]]
                   + name[22..24] + name[24..26] + name[26..28] + name[28..];
  }

  lemma TwoOfDigits(s: string, i: nat)
    requires i + 2 <= |s| && IsDigit(s[i]) && IsDigit(s[i + 1])
    ensures 0 <= Num2(s, i) <= 99 && Two(Num2(s, i)) == s[i..i + 2]
  {
  }

  lemma FourOfDigits(s: string, i: nat)
    requires i + 4 <= |s| && forall k :: i <= k < i + 4 ==> IsDigit(s[k])
    ensures 0 <= Num4(s, i) <= 9999 && Four(Num4(s, i)) == s[i..i + 4]
  {
    var d0, d1 := DigitValue(s[i]), DigitValue(s[i + 1]);
    var d2, d3 := DigitValue(s[i + 2]), DigitValue(s[i + 3]);
    assert Num4(s, i) == 1000 * d0 + 100 * d1 + 10 * d2 + d3;
    DigitsArithmetic(d0, d1, d2, d3);
  }

  /** Splitting a four-digit number into its digits recovers them. */
  lemma DigitsArithmetic(d0: int, d1: int, d2: int, d3: int)
    requires 0 <= d0 <= 9 && 0 <= d1 <= 9 && 0 <= d2 <= 9 && 0 <= d3 <= 9
    ensures var n := 1000 * d0 + 100 * d1 + 10 * d2 + d3;
            n / 10 / 10 / 10 == d0 && n / 10 / 10 % 10 == d1 && n / 10 % 10 == d2 && n % 10 == d3
  {
    var n := 1000 * d0 + 100 * d1 + 10 * d2 + d3;
    var tens := 100 * d0 + 10 * d1 + d2;
    assert n / 10 == tens && n % 10 == d3;
    var hundreds := 10 * d0 + d1;
    assert tens / 10 == hundreds && tens % 10 == d2;
    assert hundreds / 10 == d0 && hundreds % 10 == d1;
  }

  /** 5 March 2024, 09:00:00 gives "redbeam_data_20240305_090000.csv". */
  lemma MorningExportName(t: Stamp, expected: string)
    requires t == Stamp(2024, 3, 5, 9, 0, 0)
    requires expected == "redbeam_data_20240305_090000.csv"
    ensures ArchiveName(t) == expected
  {
    assert Four(2024) == "2024";
    assert Two(3) == "03" && Two(5) == "05" && Two(9) == "09" && Two(0) == "00";
  }
}
