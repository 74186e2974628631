/** The image filename format: `upload` names a file after the server clock as
    `YYYYMMDD_HHMMSS.jpg` (strftime `%Y%m%d_%H%M%S`), and the listing parses the
    stem back with strptime and shows it as `YYYY-MM-DD HH:MM:SS`, or as
    "Unknown" when the stem is not a date-time in that format. */
module TimestampCodec {

  import opened Values

  /** A calendar date-time to the second, as `datetime` holds it. */
  datatype DateTime = DateTime(year: int, month: int, day: int, hour: int, minute: int, second: int)

  predicate IsLeapYear(year: int) {
    year % 4 == 0 && (year % 100 != 0 || year % 400 == 0)
  }

  function DaysInMonth(year: int, month: int): int {
    if month == 2 then (if IsLeapYear(year) then 29 else 28)
    else if month == 4 || month == 6 || month == 9 || month == 11 then 30
    else 31
  }

  /** The date-times a Python `datetime` can hold (years 1 to 9999). */
  predicate ValidDateTime(t: DateTime) {
    && 1 <= t.year <= 9999
    && 1 <= t.month <= 12
    && 1 <= t.day <= DaysInMonth(t.year, t.month)
    && 0 <= t.hour < 24
    && 0 <= t.minute < 60
    && 0 <= t.second < 60
  }

  // ---------------------------------------------------------------------------
  // Fixed-width decimal fields

  function Pow10(w: nat): (p: nat)
    ensures p >= 1
  {
    if w == 0 then 1 else 10 * Pow10(w - 1)
  }

  predicate IsDigit(c: char) {
    '0' <= c <= '9'
  }

  predicate AllDigits(s: string) {
    forall i :: 0 <= i < |s| ==> IsDigit(s[i])
  }

  function DigitChar(d: nat): char
    requires d < 10
  {
    ['0', '1', '2', '3', '4', '5', '6', '7', '8', '9'][d]
  }

  function DigitValue(c: char): nat
    requires IsDigit(c)
  {
    (c as int - '0' as int) as nat
  }

  /** `n` in decimal, zero-padded to exactly `w` digits (strftime's `%04d`, `%02d`). */
  function Digits(n: nat, w: nat): (s: string)
    requires n < Pow10(w)
    ensures |s| == w
    ensures AllDigits(s)
  {
    if w == 0 then [] else Digits(n / 10, w - 1) + [DigitChar(n % 10)]
  }

  /** The number a string of decimal digits denotes. */
  function ParseDigits(s: string): nat
    requires AllDigits(s)
  {
    if s == [] then 0 else 10 * ParseDigits(s[..|s| - 1]) + DigitValue(s[|s| - 1])
  }

  lemma {:induction false} ParseDigitsOfDigits(n: nat, w: nat)
    requires n < Pow10(w)
    ensures ParseDigits(Digits(n, w)) == n
  {
    if w > 0 {
      var s := Digits(n, w);
      assert s[..w - 1] == Digits(n / 10, w - 1);
      ParseDigitsOfDigits(n / 10, w - 1);
      assert DigitValue(DigitChar(n % 10)) == n % 10;
    }
  }

  lemma {:induction false} DigitsOfParseDigits(s: string)
    requires AllDigits(s)
    ensures ParseDigits(s) < Pow10(|s|)
    ensures Digits(ParseDigits(s), |s|) == s
  {
    if s != [] {
      var init, d := s[..|s| - 1], DigitValue(s[|s| - 1]);
      DigitsOfParseDigits(init);
      var p := ParseDigits(init);
      assert (10 * p + d) / 10 == p;
      assert (10 * p + d) % 10 == d;
      assert DigitChar(d) == s[|s| - 1];
      assert s == init + [s[|s| - 1]];
    }
  }

  // ---------------------------------------------------------------------------
  // The filename stem `YYYYMMDD_HHMMSS` and the display form

  /** The stem strftime `%Y%m%d_%H%M%S` renders for `t`. */
  function Stem(t: DateTime): (s: string)
    requires ValidDateTime(t)
    ensures |s| == 15 && s[8] == '_'
  {
    Digits(t.year, 4) + Digits(t.month, 2) + Digits(t.day, 2) + "_"
      + Digits(t.hour, 2) + Digits(t.minute, 2) + Digits(t.second, 2)
  }

  /** The name `upload` stores an image under when the clock reads `t`. */
  function UploadFilename(t: DateTime): (name: string)
    requires ValidDateTime(t)
    ensures |name| == 19 && EndsWithJpg(name)
    ensures name[..15] == Stem(t)
  {
    Stem(t) + ".jpg"
  }

  /** strptime with `%Y%m%d_%H%M%S`, in its fixed-width form: eight digits, an
      underscore, six digits, naming a real calendar date-time. */
  function ParseStem(s: string): (r: Option<DateTime>)
    ensures r.Some? ==> ValidDateTime(r.value)
  {
    if |s| == 15 && s[8] == '_' && AllDigits(s[..8]) && AllDigits(s[9..]) then
      var t := DateTime(ParseDigits(s[0..4]), ParseDigits(s[4..6]), ParseDigits(s[6..8]),
                        ParseDigits(s[9..11]), ParseDigits(s[11..13]), ParseDigits(s[13..15]));
      if ValidDateTime(t) then Some(t) else None
    else
      None
  }

  /** strftime `%Y-%m-%d %H:%M:%S`. */
  function Display(t: DateTime): (s: string)
    requires ValidDateTime(t)
    ensures |s| == 19
    ensures s[4] == '-' && s[7] == '-' && s[10] == ' ' && s[13] == ':' && s[16] == ':'
  {
    Digits(t.year, 4) + "-" + Digits(t.month, 2) + "-" + Digits(t.day, 2) + " "
      + Digits(t.hour, 2) + ":" + Digits(t.minute, 2) + ":" + Digits(t.second, 2)
  }

  predicate EndsWithJpg(name: string) {
    |name| >= 4 && name[|name| - 4..] == ".jpg"
  }

  /** The display timestamp the listing attaches to a `.jpg` file. */
  function DisplayTimestamp(filename: string): (shown: string)
    requires EndsWithJpg(filename)
    ensures shown == "Unknown" <==> ParseStem(filename[..|filename| - 4]).None?
    ensures shown != "Unknown" ==> |shown| == 19
  {
    match ParseStem(filename[..|filename| - 4])
    case Some(t) => Display(t)
    case None => "Unknown"
  }

  // ---------------------------------------------------------------------------
  // Properties

  /** The fields of a stem sit at fixed positions. */
  lemma StemFields(t: DateTime)
    requires ValidDateTime(t)
    ensures |Stem(t)| == 15 && Stem(t)[8] == '_'
    ensures Stem(t)[0..4] == Digits(t.year, 4)
    ensures Stem(t)[4..6] == Digits(t.month, 2)
    ensures Stem(t)[6..8] == Digits(t.day, 2)
    ensures Stem(t)[9..11] == Digits(t.hour, 2)
    ensures Stem(t)[11..13] == Digits(t.minute, 2)
    ensures Stem(t)[13..15] == Digits(t.second, 2)
    ensures AllDigits(Stem(t)[..8]) && AllDigits(Stem(t)[9..])
  {
    var s := Stem(t);
    assert s[..8] == Digits(t.year, 4) + Digits(t.month, 2) + Digits(t.day, 2);
    assert s[9..] == Digits(t.hour, 2) + Digits(t.minute, 2) + Digits(t.second, 2);
  }

  /** Every stem `upload` writes parses back to the clock reading it came from. */
  lemma {:induction false} ParseStemOfStem(t: DateTime)
    requires ValidDateTime(t)
    ensures ParseStem(Stem(t)) == Some(t)
  {
    StemFields(t);
    ParseDigitsOfDigits(t.year, 4);
    ParseDigitsOfDigits(t.month, 2);
    ParseDigitsOfDigits(t.day, 2);
    ParseDigitsOfDigits(t.hour, 2);
    ParseDigitsOfDigits(t.minute, 2);
    ParseDigitsOfDigits(t.second, 2);
  }

  /** The fixed-width parse accepts only stems in the canonical rendering:
      whatever it accepts, rendering the result gives the same characters. */
  lemma {:induction false} StemOfParseStem(s: string)
    requires ParseStem(s).Some?
    ensures Stem(ParseStem(s).value) == s
  {
    var t := ParseStem(s).value;
    assert AllDigits(s[0..4]) && AllDigits(s[4..6]) && AllDigits(s[6..8]) by {
      assert s[0..4] == s[..8][0..4] && s[4..6] == s[..8][4..6] && s[6..8] == s[..8][6..8];
    }
    assert AllDigits(s[9..11]) && AllDigits(s[11..13]) && AllDigits(s[13..15]) by {
      assert s[9..11] == s[9..][0..2] && s[11..13] == s[9..][2..4] && s[13..15] == s[9..][4..6];
    }
    DigitsOfParseDigits(s[0..4]);
    DigitsOfParseDigits(s[4..6]);
    DigitsOfParseDigits(s[6..8]);
    DigitsOfParseDigits(s[9..11]);
    DigitsOfParseDigits(s[11..13]);
    DigitsOfParseDigits(s[13..15]);
    StemPieces(s);
  }

  /** A 15-character string with `_` at position 8 is its six fields and the `_`. */
  lemma StemPieces(s: string)
    requires |s| == 15 && s[8] == '_'
    ensures s == s[0..4] + s[4..6] + s[6..8] + "_" + s[9..11] + s[11..13] + s[13..15]
  {
    assert s[..8] == s[0..4] + s[4..6] + s[6..8];
    assert s[9..] == s[9..11] + s[11..13] + s[13..15];
    assert s == s[..8] + "_" + s[9..];
  }

  /** Two clock readings give the same upload filename exactly when they are
      the same clock second: a second upload within the same clock second
      overwrites the first. */
  lemma {:induction false} UploadFilenameInjective(t: DateTime, u: DateTime)
    requires ValidDateTime(t) && ValidDateTime(u)
    ensures UploadFilename(t) == UploadFilename(u) <==> t == u
  {
    if UploadFilename(t) == UploadFilename(u) {
      StemFields(t);
      StemFields(u);
      assert Stem(t) == UploadFilename(t)[..15];
      assert Stem(u) == UploadFilename(u)[..15];
      ParseStemOfStem(t);
      ParseStemOfStem(u);
    }
  }

  /** An uploaded image lists with the display form of the clock reading that
      named it, and the display is the stem's own digits regrouped. */
  lemma {:induction false} UploadedImageDisplay(t: DateTime)
    requires ValidDateTime(t)
    ensures EndsWithJpg(UploadFilename(t))
    ensures DisplayTimestamp(UploadFilename(t)) == Display(t)
    ensures Display(t) == Regroup(Stem(t))
  {
    var name := UploadFilename(t);
    assert name[..|name| - 4] == Stem(t);
    ParseStemOfStem(t);
    StemFields(t);
  }

  /** The display form of a listed file is built from the digits of its name:
      whenever the stem parses, the display is the stem regrouped as
      `YYYY-MM-DD HH:MM:SS`; otherwise it is "Unknown". */
  lemma {:induction false} DisplayRegroupsStem(filename: string)
    requires EndsWithJpg(filename)
    ensures var stem := filename[..|filename| - 4];
            if ParseStem(stem).Some? then |stem| == 15 && DisplayTimestamp(filename) == Regroup(stem)
            else DisplayTimestamp(filename) == "Unknown"
  {
    var stem := filename[..|filename| - 4];
    if ParseStem(stem).Some? {
      var t := ParseStem(stem).value;
      StemOfParseStem(stem);
      StemFields(t);
    }
  }

  /** The characters of a 15-character stem with `-`, ` ` and `:` put between
      the fields, and the `_` dropped. */
  function Regroup(stem: string): string
    requires |stem| == 15
  {
    stem[0..4] + "-" + stem[4..6] + "-" + stem[6..8] + " "
      + stem[9..11] + ":" + stem[11..13] + ":" + stem[13..15]
  }
}
