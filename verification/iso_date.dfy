/**
  How Python's `strftime("%Y-%m-%d")` writes a date (the full-date form
  `yyyy-mm-dd` of section 5.6 of RFC 3339) and how
  `datetime.strptime(s, "%Y-%m-%d")` reads one back, which also accepts
  unpadded months and days, and space-padded days.

  `strptime` matches the text against a regular expression whose pieces are
    %Y  four digits
    %m  `1[0-2]|0[1-9]|[1-9]`
    %d  `3[01]|[12]\d|0[1-9]|[1-9]| [1-9]`
  taking the first alternative that matches, rejects any text left over
  ("unconverted data remains"), and then rejects a triple the calendar does
  not contain (year 0, 30 February, ...).
 */
module IsoDate {
  import opened Wrappers
  import opened Calendar

  predicate IsDigit(c: char) {
    '0' <= c <= '9'
  }

  function DigitValue(c: char): (v: int)
    requires IsDigit(c)
    ensures 0 <= v <= 9
  {
    c as int - '0' as int
  }

  function DigitChar(k: int): (c: char)
    requires 0 <= k <= 9
    ensures IsDigit(c) && DigitValue(c) == k
  {
    ('0' as int + k) as char
  }

  /** Two-digit zero-padded decimal, as `%m` and `%d` print. */
  function Pad2(n: int): string
    requires 0 <= n < 100
  {
    [DigitChar(n / 10), DigitChar(n % 10)]
  }

  /** Four-digit zero-padded decimal, as `%Y` prints. */
  function Pad4(n: int): string
    requires 0 <= n < 10000
  {
    Pad2(n / 100) + Pad2(n % 100)
  }

  /**
    `d.strftime("%Y-%m-%d")`: four year digits, a dash, two month digits, a
    dash and two day digits.
   */
  function Format(d: Date): (s: string)
    requires Valid(d)
    ensures Canonical(s)
  {
    Pad4(d.year) + "-" + Pad2(d.month) + "-" + Pad2(d.day)
  }

  // ---------------------------------------------------------------------
  // Parsing
  // ---------------------------------------------------------------------

  /** A number read from the front of a text, and how many characters it used. */
  datatype Token = Token(value: int, width: nat)

  /** The `%m` alternatives `1[0-2]|0[1-9]|[1-9]`, first match wins. */
  function MatchMonth(s: string): (r: Option<Token>)
    ensures r.Some? ==> 1 <= r.value.width <= 2 && r.value.width <= |s|
    ensures r.Some? ==> 1 <= r.value.value <= 12
  {
    if |s| >= 2 && s[0] == '1' && '0' <= s[1] <= '2' then Some(Token(10 + DigitValue(s[1]), 2))
    else if |s| >= 2 && s[0] == '0' && '1' <= s[1] <= '9' then Some(Token(DigitValue(s[1]), 2))
    else if |s| >= 1 && '1' <= s[0] <= '9' then Some(Token(DigitValue(s[0]), 1))
    else None
  }

  /** The `%d` alternatives `3[01]|[12]\d|0[1-9]|[1-9]| [1-9]`, first match wins. */
  function MatchDay(s: string): (r: Option<Token>)
    ensures r.Some? ==> 1 <= r.value.width <= 2 && r.value.width <= |s|
    ensures r.Some? ==> 1 <= r.value.value <= 31
  {
    if |s| >= 2 && s[0] == '3' && '0' <= s[1] <= '1' then Some(Token(30 + DigitValue(s[1]), 2))
    else if |s| >= 2 && '1' <= s[0] <= '2' && IsDigit(s[1]) then Some(Token(10 * DigitValue(s[0]) + DigitValue(s[1]), 2))
    else if |s| >= 2 && s[0] == '0' && '1' <= s[1] <= '9' then Some(Token(DigitValue(s[1]), 2))
    else if |s| >= 1 && '1' <= s[0] <= '9' then Some(Token(DigitValue(s[0]), 1))
    else if |s| >= 2 && s[0] == ' ' && '1' <= s[1] <= '9' then Some(Token(DigitValue(s[1]), 2))
    else None
  }

  /** `datetime.strptime(s, "%Y-%m-%d")`; None where it raises ValueError. */
  function Parse(s: string): (r: Option<Date>)
    ensures r.Some? ==> Valid(r.value)
  {
    if |s| < 5 || !(IsDigit(s[0]) && IsDigit(s[1]) && IsDigit(s[2]) && IsDigit(s[3])) || s[4] != '-' then
      None
    else
      var year := 1000 * DigitValue(s[0]) + 100 * DigitValue(s[1]) + 10 * DigitValue(s[2]) + DigitValue(s[3]);
      match MatchMonth(s[5..])
      case None => None
      case Some(month) =>
        var k := 5 + month.width;
        if |s| <= k || s[k] != '-' then None
        else
          match MatchDay(s[k + 1..])
          case None => None
          case Some(day) =>
            if k + 1 + day.width != |s| then None
            else if Valid(Date(year, month.value, day.value)) then Some(Date(year, month.value, day.value))
            else None
  }

  /** The spellings of month `m` that the `%m` alternatives read as `m`: "mm", or "m" below 10. */
  function MonthSpellings(m: int): set<string>
    requires 1 <= m <= 12
  {
    if m < 10 then {Pad2(m), [DigitChar(m)]} else {Pad2(m)}
  }

  /** The spellings of day `v` that the `%d` alternatives read as `v`: "dd", or "d" and " d" below 10. */
  function DaySpellings(v: int): set<string>
    requires 1 <= v <= 31
  {
    if v < 10 then {Pad2(v), [DigitChar(v)], [' ', DigitChar(v)]} else {Pad2(v)}
  }

  /** Every text of the form year-month-day that spells `d` with a four-digit year. */
  function Spellings(d: Date): set<string>
    requires Valid(d)
  {
    set mt, dt | mt in MonthSpellings(d.month) && dt in DaySpellings(d.day) :: Pad4(d.year) + "-" + mt + "-" + dt
  }

  // ---------------------------------------------------------------------
  // Round trips
  // ---------------------------------------------------------------------

  lemma Pad4Digits(n: int)
    requires 0 <= n < 10000
    ensures var t := Pad4(n);
      1000 * DigitValue(t[0]) + 100 * DigitValue(t[1]) + 10 * DigitValue(t[2]) + DigitValue(t[3]) == n
  {
    var hi, lo := n / 100, n % 100;
    assert n == 100 * hi + lo;
    assert hi == 10 * (hi / 10) + hi % 10;
    assert lo == 10 * (lo / 10) + lo % 10;
  }

  /** The shape `strftime("%Y-%m-%d")` always produces: ten characters, digits and two dashes. */
  predicate Canonical(s: string) {
    && |s| == 10
    && s[4] == '-' && s[7] == '-'
    && forall i | 0 <= i < 10 && i != 4 && i != 7 :: IsDigit(s[i])
  }

  lemma Pad2Digits(a: int, b: int)
    requires 0 <= a <= 9 && 0 <= b <= 9
    ensures Pad2(10 * a + b) == [DigitChar(a), DigitChar(b)]
  {
  }

  lemma Pad4Of(a: int, b: int, c: int, e: int)
    requires 0 <= a <= 9 && 0 <= b <= 9 && 0 <= c <= 9 && 0 <= e <= 9
    ensures Pad4(1000 * a + 100 * b + 10 * c + e) == [DigitChar(a), DigitChar(b), DigitChar(c), DigitChar(e)]
  {
    var n := 1000 * a + 100 * b + 10 * c + e;
    assert n == 100 * (10 * a + b) + (10 * c + e);
    assert n / 100 == 10 * a + b && n % 100 == 10 * c + e;
    Pad2Digits(a, b);
    Pad2Digits(c, e);
  }

  lemma DigitCharValue(c: char)
    requires IsDigit(c)
    ensures DigitChar(DigitValue(c)) == c
  {
  }

  /** Four digits at the front of a text are the `%Y` spelling of the year they read. */
  lemma Pad4OfText(s: string)
    requires |s| >= 4 && IsDigit(s[0]) && IsDigit(s[1]) && IsDigit(s[2]) && IsDigit(s[3])
    ensures Pad4(1000 * DigitValue(s[0]) + 100 * DigitValue(s[1]) + 10 * DigitValue(s[2]) + DigitValue(s[3])) == s[..4]
  {
    Pad4Of(DigitValue(s[0]), DigitValue(s[1]), DigitValue(s[2]), DigitValue(s[3]));
    DigitCharValue(s[0]);
    DigitCharValue(s[1]);
    DigitCharValue(s[2]);
    DigitCharValue(s[3]);
  }

  /** What the `%m` alternatives consume is a spelling of the month they read. */
  lemma MatchMonthSpells(t: string)
    requires MatchMonth(t).Some?
    ensures MatchMonth(t).value.width <= |t|
    ensures t[..MatchMonth(t).value.width] in MonthSpellings(MatchMonth(t).value.value)
  {
    var k := MatchMonth(t).value;
    if k.width == 2 {
      DigitCharValue(t[0]);
      DigitCharValue(t[1]);
      Pad2Digits(DigitValue(t[0]), DigitValue(t[1]));
      assert t[..2] == [t[0], t[1]];
    } else {
      DigitCharValue(t[0]);
      assert t[..1] == [t[0]];
    }
  }

  /** What the `%d` alternatives consume is a spelling of the day they read. */
  lemma MatchDaySpells(t: string)
    requires MatchDay(t).Some?
    ensures MatchDay(t).value.width <= |t|
    ensures t[..MatchDay(t).value.width] in DaySpellings(MatchDay(t).value.value)
  {
    var k := MatchDay(t).value;
    if k.width == 2 {
      assert t[..2] == [t[0], t[1]];
      DigitCharValue(t[1]);
      if t[0] != ' ' {
        DigitCharValue(t[0]);
        Pad2Digits(DigitValue(t[0]), DigitValue(t[1]));
      }
    } else {
      DigitCharValue(t[0]);
      assert t[..1] == [t[0]];
    }
  }

  /** A month spelling followed by the dash is read back as that month. */
  lemma MatchMonthOfSpelling(m: int, t: string, rest: string)
    requires 1 <= m <= 12 && t in MonthSpellings(m) && |rest| > 0 && rest[0] == '-'
    ensures MatchMonth(t + rest) == Some(Token(m, |t|))
  {
    var u := t + rest;
    if |t| == 2 {
      assert u[0] == t[0] && u[1] == t[1];
    } else {
      assert u[0] == t[0] && u[1] == '-';
    }
  }

  /** A day spelling is read back as that day. */
  lemma MatchDayOfSpelling(v: int, t: string)
    requires 1 <= v <= 31 && t in DaySpellings(v)
    ensures MatchDay(t) == Some(Token(v, |t|))
  {
  }

  /** Each spelling of a valid date reads back as that date. */
  lemma SpellingParses(d: Date, mt: string, dt: string)
    requires Valid(d) && mt in MonthSpellings(d.month) && dt in DaySpellings(d.day)
    ensures Parse(Pad4(d.year) + "-" + mt + "-" + dt) == Some(d)
  {
    var s := Pad4(d.year) + "-" + mt + "-" + dt;
    Pad4Digits(d.year);
    assert s[5..] == mt + ("-" + dt);
    MatchMonthOfSpelling(d.month, mt, "-" + dt);
    var k := 5 + |mt|;
    assert s[k] == '-';
    assert s[k + 1..] == dt;
    MatchDayOfSpelling(d.day, dt);
  }

  /** Reading back what `strftime` wrote gives the same calendar date. */
  lemma ParseFormat(d: Date)
    requires Valid(d)
    ensures Parse(Format(d)) == Some(d)
  {
    SpellingParses(d, Pad2(d.month), Pad2(d.day));
  }

  /** Every text `strptime` accepts is one of the spellings of the date it reads. */
  lemma ParseSpells(s: string)
    ensures Parse(s).Some? ==> s in Spellings(Parse(s).value)
  {
    if Parse(s).Some? {
      var d := Parse(s).value;
      var month := MatchMonth(s[5..]).value;
      var k := 5 + month.width;
      var day := MatchDay(s[k + 1..]).value;
      MatchMonthSpells(s[5..]);
      MatchDaySpells(s[k + 1..]);
      Pad4OfText(s);
      var mt, dt := s[5..k], s[k + 1..];
      assert s[5..][..month.width] == mt;
      assert s[k + 1..][..day.width] == dt;
      assert s == s[..4] + "-" + mt + "-" + dt;
      assert d == Date(d.year, month.value, day.value);
    }
  }

  /**
    `strptime(s, "%Y-%m-%d")` reads `d` exactly from the spellings of `d`: four
    year digits, the month as "mm" or (below 10) "m", and the day as "dd" or
    (below 10) "d" or " d", with nothing after.
   */
  lemma ParseExactly(d: Date)
    requires Valid(d)
    ensures forall s :: Parse(s) == Some(d) <==> s in Spellings(d)
  {
    forall s | s in Spellings(d)
      ensures Parse(s) == Some(d)
    {
      var mt, dt :| mt in MonthSpellings(d.month) && dt in DaySpellings(d.day)
        && s == Pad4(d.year) + "-" + mt + "-" + dt;
      SpellingParses(d, mt, dt);
    }
    forall s | Parse(s) == Some(d)
      ensures s in Spellings(d)
    {
      ParseSpells(s);
    }
  }

  /** `strptime` also reads an unpadded month and day or a space-padded day, and nothing longer. */
  lemma ParseExamples()
    ensures Parse("2023-9-9") == Some(Date(2023, 9, 9))
    ensures Parse("2023-09- 9") == Some(Date(2023, 9, 9))
    ensures Parse("2023-09-09 ") == None
  {
  }

  /**
    A canonical text that parses is exactly the formatting of what it parses to,
    so formatting is the one canonical spelling of each date.
   */
  lemma FormatParse(s: string)
    requires Canonical(s) && Parse(s).Some?
    ensures Format(Parse(s).value) == s
  {
    var d := Parse(s).value;
    ParseSpells(s);
    var mt, dt :| mt in MonthSpellings(d.month) && dt in DaySpellings(d.day)
      && s == Pad4(d.year) + "-" + mt + "-" + dt;
    assert |mt| == 2 && |dt| == 2;
    assert dt[0] == s[8] && IsDigit(s[8]);
  }
}
