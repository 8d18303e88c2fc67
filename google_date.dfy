/**
 * `parseGoogleDate`: a fixed-position reader for calendar timestamps of the
 * shape `YYYY-MM-DDTHH:MM:SS±HH:MM`: a subset of the `date-time` form of
 * RFC 3339, section 5.6, with whole seconds, an upper-case `T` and a
 * numeric offset only. It yields the arguments it hands to
 * the `Date` constructor: year, zero-based month, day, hour and minute.
 * Seconds and the offset are matched but never used.
 */
module GoogleDate {
  import opened Wrappers

  /** The arguments of `new Date(year, month - 1, day, hour, minute)`. */
  datatype DateArgs = DateArgs(year: int, monthIndex: int, day: int, hour: int, minute: int)

  predicate IsDigit(c: char)
  {
    '0' <= c <= '9'
  }

  predicate AllDigits(s: string)
  {
    forall i :: 0 <= i < |s| ==> IsDigit(s[i])
  }

  function DigitValue(c: char): (d: nat)
    requires IsDigit(c)
    ensures d < 10
  {
    (c as int) - ('0' as int)
  }

  function DigitChar(d: nat): (c: char)
    requires d < 10
    ensures IsDigit(c) && DigitValue(c) == d
  {
    ('0' as int + d) as char
  }

  /** Unary `+` on a string of decimal digits (leading zeros allowed). */
  function Decimal(s: string): nat
    requires AllDigits(s)
  {
    if s == [] then 0 else Decimal(s[..|s| - 1]) * 10 + DigitValue(s[|s| - 1])
  }

  /**
   * The pattern `^(\d{4})-(\d{2})-(\d{2})T(\d{2}):(\d{2}):(\d{2})([+-]\d{2}):(\d{2})$`.
   * It is anchored at both ends, so a match is the whole 25-character string,
   * checked position by position.
   */
  predicate Matches(s: string)
  {
    && |s| == 25
    && IsDigit(s[0]) && IsDigit(s[1]) && IsDigit(s[2]) && IsDigit(s[3]) && s[4] == '-'
    && IsDigit(s[5]) && IsDigit(s[6]) && s[7] == '-'
    && IsDigit(s[8]) && IsDigit(s[9]) && s[10] == 'T'
    && IsDigit(s[11]) && IsDigit(s[12]) && s[13] == ':'
    && IsDigit(s[14]) && IsDigit(s[15]) && s[16] == ':'
    && IsDigit(s[17]) && IsDigit(s[18])
    && (s[19] == '+' || s[19] == '-') && IsDigit(s[20]) && IsDigit(s[21]) && s[22] == ':'
    && IsDigit(s[23]) && IsDigit(s[24])
  }

  /** The same pattern read group by group: digit groups between fixed separators. */
  predicate GroupsMatch(s: string)
    requires |s| == 25
  {
    && AllDigits(s[0..4]) && s[4] == '-'
    && AllDigits(s[5..7]) && s[7] == '-'
    && AllDigits(s[8..10]) && s[10] == 'T'
    && AllDigits(s[11..13]) && s[13] == ':'
    && AllDigits(s[14..16]) && s[16] == ':'
    && AllDigits(s[17..19])
    && (s[19] == '+' || s[19] == '-') && AllDigits(s[20..22]) && s[22] == ':'
    && AllDigits(s[23..25])
  }

  /** Reading the pattern position by position or group by group is the same. */
  lemma MatchesByGroups(s: string)
    requires |s| == 25
    ensures Matches(s) <==> GroupsMatch(s)
  {
    DigitsOf(s, 0, 4);
    DigitsOf(s, 5, 7);
    DigitsOf(s, 8, 10);
    DigitsOf(s, 11, 13);
    DigitsOf(s, 14, 16);
    DigitsOf(s, 17, 19);
    DigitsOf(s, 20, 22);
    DigitsOf(s, 23, 25);
  }

  /** A slice is all digits iff each of its positions in the whole string is. */
  lemma DigitsOf(s: string, from: nat, to: nat)
    requires from <= to <= |s|
    ensures AllDigits(s[from..to]) <==> forall i :: from <= i < to ==> IsDigit(s[i])
  {
    var slice := s[from..to];
    assert forall i :: from <= i < to ==> slice[i - from] == s[i];
  }

  /** The pattern's eight groups put back together with the literal text between them. */
  function Assemble(year: string, month: string, day: string, hour: string, minute: string,
                    second: string, offset: string, offsetMinute: string): string
  {
    year + "-" + month + "-" + day + "T" + hour + ":" + minute + ":" + second + offset + ":" + offsetMinute
  }

  /**
   * `date.split(pattern)`: on a match, the empty text before it, the eight
   * captured groups and the empty text after it; otherwise the whole string.
   */
  function SplitOnPattern(s: string): (tokens: seq<string>)
    ensures Matches(s) <==> |tokens| == 10
    ensures !Matches(s) ==> tokens == [s]
  {
    if Matches(s) then
      ["", s[0..4], s[5..7], s[8..10], s[11..13], s[14..16], s[17..19], s[19..22], s[23..25], ""]
    else [s]
  }

  /** `+tokens[i]`: None stands for NaN, which is what an absent token gives. */
  function NumberAt(tokens: seq<string>, i: nat): (r: Option<int>)
    ensures r.Some? <==> i < |tokens| && AllDigits(tokens[i])
    ensures r.Some? ==> r.value >= 0
  {
    if i < |tokens| && AllDigits(tokens[i]) then Some(Decimal(tokens[i])) else None
  }

  /** A number read from a token, written back with the token's width, is the token. */
  lemma NumberWritesBack(tokens: seq<string>, i: nat)
    requires NumberAt(tokens, i).Some?
    ensures NumberAt(tokens, i).value < Pow10(|tokens[i]|)
    ensures Pad(NumberAt(tokens, i).value, |tokens[i]|) == tokens[i]
  {
    PadDecimal(tokens[i]);
  }

  /** On a match, `date.split(pattern)` gives back the input once its groups are put together again. */
  lemma SplitRejoins(s: string)
    requires Matches(s)
    ensures var tokens := SplitOnPattern(s);
      && tokens[0] == "" && tokens[9] == ""
      && s == Assemble(tokens[1], tokens[2], tokens[3], tokens[4], tokens[5], tokens[6], tokens[7], tokens[8])
  {
    GroupsRejoin(s);
  }

  /**
   * The date `parseGoogleDate` builds; None is JavaScript's Invalid Date.
   * A date is only built from a string that matches the pattern.
   */
  function ParseGoogleDate(date: string): (r: Option<DateArgs>)
    ensures r.Some? ==> Matches(date)
  {
    var tokens := SplitOnPattern(date);
    var year := NumberAt(tokens, 1);
    var month := NumberAt(tokens, 2);
    var day := NumberAt(tokens, 3);
    var hour := NumberAt(tokens, 4);
    var minute := NumberAt(tokens, 5);
    if year.Some? && month.Some? && day.Some? && hour.Some? && minute.Some? then
      Some(DateArgs(year.value, month.value - 1, day.value, hour.value, minute.value))
    else None
  }

  /** A timestamp as the calendar provider writes it. */
  datatype Timestamp = Timestamp(
    year: nat, month: nat, day: nat, hour: nat, minute: nat, second: nat,
    offsetSign: char, offsetHour: nat, offsetMinute: nat)

  /** The fields fit the widths of the format. */
  predicate Writable(t: Timestamp)
  {
    && t.year < 10000 && t.month < 100 && t.day < 100
    && t.hour < 100 && t.minute < 100 && t.second < 100
    && (t.offsetSign == '+' || t.offsetSign == '-')
    && t.offsetHour < 100 && t.offsetMinute < 100
  }

  /** `n` written with exactly `width` decimal digits, zero-padded. */
  function Pad(n: nat, width: nat): (s: string)
    requires n < Pow10(width)
    ensures |s| == width && AllDigits(s)
  {
    if width == 0 then "" else Pad(n / 10, width - 1) + [DigitChar(n % 10)]
  }

  function Pow10(k: nat): (p: nat)
    ensures p >= 1
  {
    if k == 0 then 1 else 10 * Pow10(k - 1)
  }

  /** `YYYY-MM-DDTHH:MM:SS±HH:MM` */
  function Format(t: Timestamp): (s: string)
    requires Writable(t)
  {
    Assemble(Pad(t.year, 4), Pad(t.month, 2), Pad(t.day, 2), Pad(t.hour, 2), Pad(t.minute, 2),
             Pad(t.second, 2), [t.offsetSign] + Pad(t.offsetHour, 2), Pad(t.offsetMinute, 2))
  }

  /** Reading back a padded number gives the number. */
  lemma {:induction false} DecimalPad(n: nat, width: nat)
    requires n < Pow10(width)
    ensures Decimal(Pad(n, width)) == n
  {
    if width > 0 {
      var s := Pad(n, width);
      DecimalPad(n / 10, width - 1);
      assert s[..|s| - 1] == Pad(n / 10, width - 1);
    }
  }

  /** A string of `k` digits is worth less than 10^k. */
  lemma {:induction false} DecimalBound(s: string)
    requires AllDigits(s)
    ensures Decimal(s) < Pow10(|s|)
  {
    if s != [] {
      DecimalBound(s[..|s| - 1]);
    }
  }

  /** Writing back the value of a digit string gives the digit string. */
  lemma {:induction false} PadDecimal(s: string)
    requires AllDigits(s)
    ensures Decimal(s) < Pow10(|s|) && Pad(Decimal(s), |s|) == s
  {
    if s != [] {
      var init := s[..|s| - 1];
      PadDecimal(init);
      var n := Decimal(s);
      assert n / 10 == Decimal(init) && n % 10 == DigitValue(s[|s| - 1]);
      assert init + [s[|s| - 1]] == s;
    }
  }

  /** `s` holds the fields of `t` at the positions the pattern expects them. */
  predicate LaidOut(s: string, t: Timestamp)
    requires Writable(t)
  {
    && |s| == 25
    && s[0..4] == Pad(t.year, 4) && s[4] == '-'
    && s[5..7] == Pad(t.month, 2) && s[7] == '-'
    && s[8..10] == Pad(t.day, 2) && s[10] == 'T'
    && s[11..13] == Pad(t.hour, 2) && s[13] == ':'
    && s[14..16] == Pad(t.minute, 2) && s[16] == ':'
    && s[17..19] == Pad(t.second, 2) && s[19] == t.offsetSign
    && s[20..22] == Pad(t.offsetHour, 2) && s[22] == ':'
    && s[23..25] == Pad(t.offsetMinute, 2)
  }

  lemma FormatPieces(t: Timestamp)
    requires Writable(t)
    ensures LaidOut(Format(t), t)
  {
    var offset := [t.offsetSign] + Pad(t.offsetHour, 2);
    AssembleSlices(Pad(t.year, 4), Pad(t.month, 2), Pad(t.day, 2), Pad(t.hour, 2), Pad(t.minute, 2),
                   Pad(t.second, 2), offset, Pad(t.offsetMinute, 2));
    var s := Format(t);
    assert s[19] == s[19..22][0] == t.offsetSign;
    assert s[20..22] == s[19..22][1..] == Pad(t.offsetHour, 2);
  }

  /** Each group of an assembled string sits where the pattern expects it. */
  lemma AssembleSlices(year: string, month: string, day: string, hour: string, minute: string,
                       second: string, offset: string, offsetMinute: string)
    requires |year| == 4 && |month| == 2 && |day| == 2 && |hour| == 2 && |minute| == 2
    requires |second| == 2 && |offset| == 3 && |offsetMinute| == 2
    ensures var s := Assemble(year, month, day, hour, minute, second, offset, offsetMinute);
      && |s| == 25
      && s[0..4] == year && s[4] == '-' && s[5..7] == month && s[7] == '-'
      && s[8..10] == day && s[10] == 'T' && s[11..13] == hour && s[13] == ':'
      && s[14..16] == minute && s[16] == ':' && s[17..19] == second
      && s[19..22] == offset && s[22] == ':' && s[23..25] == offsetMinute
  {
    // the prefixes of the assembled string, each ending just after one more separator
    var a := year + "-";
    var b := a + month + "-";
    var c := b + day + "T";
    var d := c + hour + ":";
    var e := d + minute + ":";
    var f := e + second + offset;
    var g := f + ":";
    var s := g + offsetMinute;
    assert s == Assemble(year, month, day, hour, minute, second, offset, offsetMinute);
    assert a[0..4] == year && a[4] == '-';
    assert b[5..7] == month && b[7] == '-' && b[..5] == a;
    assert c[8..10] == day && c[10] == 'T' && c[..8] == b;
    assert d[11..13] == hour && d[13] == ':' && d[..11] == c;
    assert e[14..16] == minute && e[16] == ':' && e[..14] == d;
    assert f[17..19] == second && f[19..22] == offset && f[..17] == e;
    assert g[22] == ':' && g[..22] == f;
    assert s[23..25] == offsetMinute && s[..23] == g;
    PrefixSlices(s, g);
    PrefixSlices(s, f);
    PrefixSlices(s, e);
    PrefixSlices(s, d);
    PrefixSlices(s, c);
    PrefixSlices(s, b);
    PrefixSlices(s, a);
  }

  /** A string that matches the pattern is its eight groups assembled again. */
  lemma GroupsRejoin(s: string)
    requires Matches(s)
    ensures s == Assemble(s[0..4], s[5..7], s[8..10], s[11..13], s[14..16], s[17..19], s[19..22], s[23..25])
  {
    var f := Assemble(s[0..4], s[5..7], s[8..10], s[11..13], s[14..16], s[17..19], s[19..22], s[23..25]);
    AssembleSlices(s[0..4], s[5..7], s[8..10], s[11..13], s[14..16], s[17..19], s[19..22], s[23..25]);
    assert f[19] == f[19..22][0] == s[19..22][0] == s[19];
    assert f[20..22] == f[19..22][1..] == s[19..22][1..] == s[20..22];
    SameLayout(f, s);
  }

  /** A string agrees with each of its prefixes on the slices inside the prefix. */
  lemma PrefixSlices(s: string, p: string)
    requires |p| <= |s| && s[..|p|] == p
    ensures forall i, j :: 0 <= i <= j <= |p| ==> s[i..j] == p[i..j]
    ensures forall i :: 0 <= i < |p| ==> s[i] == p[i]
  {
    forall i | 0 <= i < |p| ensures s[i] == p[i] {
      assert s[i] == s[..|p|][i];
    }
    forall i, j | 0 <= i <= j <= |p| ensures s[i..j] == p[i..j] {
      var inS, inP := s[i..j], p[i..j];
      forall k | 0 <= k < j - i ensures inS[k] == inP[k] {
        assert inS[k] == s[i + k] && inP[k] == p[i + k];
      }
    }
  }

  /**
   * A well-formed timestamp parses to the written year, month - 1, day,
   * hour and minute; the seconds and the offset do not enter the result.
   */
  lemma ParseFormat(t: Timestamp)
    requires Writable(t)
    ensures ParseGoogleDate(Format(t)) == Some(DateArgs(t.year, t.month - 1, t.day, t.hour, t.minute))
  {
    FormatPieces(t);
    ParseLaidOut(Format(t), t);
  }

  /** A string laid out from a timestamp parses to that timestamp's date fields. */
  lemma ParseLaidOut(s: string, t: Timestamp)
    requires Writable(t) && LaidOut(s, t)
    ensures ParseGoogleDate(s) == Some(DateArgs(t.year, t.month - 1, t.day, t.hour, t.minute))
  {
    assert Matches(s);
    ParseFields(s);
    DecimalPad(t.year, 4);
    DecimalPad(t.month, 2);
    DecimalPad(t.day, 2);
    DecimalPad(t.hour, 2);
    DecimalPad(t.minute, 2);
  }

  /** On a match, the parser reads the first five captured groups. */
  lemma ParseFields(s: string)
    requires Matches(s)
    ensures ParseGoogleDate(s) == Some(DateArgs(Decimal(s[0..4]), Decimal(s[5..7]) - 1,
      Decimal(s[8..10]), Decimal(s[11..13]), Decimal(s[14..16])))
  {
    var tokens := SplitOnPattern(s);
    assert tokens[1] == s[0..4] && tokens[2] == s[5..7] && tokens[3] == s[8..10];
    assert tokens[4] == s[11..13] && tokens[5] == s[14..16];
  }

  /** Changing only the seconds or the offset leaves the parsed date unchanged. */
  lemma ParseIgnoresSecondsAndOffset(t: Timestamp, u: Timestamp)
    requires Writable(t) && Writable(u)
    requires t.year == u.year && t.month == u.month && t.day == u.day
    requires t.hour == u.hour && t.minute == u.minute
    ensures ParseGoogleDate(Format(t)) == ParseGoogleDate(Format(u))
  {
    ParseFormat(t);
    ParseFormat(u);
  }

  /** The timestamp written in a string that matches the pattern. */
  function Scan(s: string): (t: Timestamp)
    requires Matches(s)
    ensures Writable(t)
  {
    MatchesByGroups(s);
    DecimalBound(s[0..4]);
    DecimalBound(s[5..7]);
    DecimalBound(s[8..10]);
    DecimalBound(s[11..13]);
    DecimalBound(s[14..16]);
    DecimalBound(s[17..19]);
    DecimalBound(s[20..22]);
    DecimalBound(s[23..25]);
    Timestamp(Decimal(s[0..4]), Decimal(s[5..7]), Decimal(s[8..10]),
              Decimal(s[11..13]), Decimal(s[14..16]), Decimal(s[17..19]),
              s[19], Decimal(s[20..22]), Decimal(s[23..25]))
  }

  /** A string that matches the pattern is the format of the timestamp it holds. */
  lemma FormatScan(s: string)
    requires Matches(s)
    ensures Format(Scan(s)) == s
  {
    var t := Scan(s);
    FormatPieces(t);
    ScanLaidOut(s);
    LaidOutUnique(Format(t), s, t);
  }

  /** A matching string holds the fields of the timestamp scanned from it. */
  lemma ScanLaidOut(s: string)
    requires Matches(s)
    ensures LaidOut(s, Scan(s))
  {
    MatchesByGroups(s);
    PadDecimal(s[0..4]);
    PadDecimal(s[5..7]);
    PadDecimal(s[8..10]);
    PadDecimal(s[11..13]);
    PadDecimal(s[14..16]);
    PadDecimal(s[17..19]);
    PadDecimal(s[20..22]);
    PadDecimal(s[23..25]);
  }

  /** At most one string lays out a given timestamp. */
  lemma LaidOutUnique(f: string, s: string, t: Timestamp)
    requires Writable(t) && LaidOut(f, t) && LaidOut(s, t)
    ensures f == s
  {
    SameLayout(f, s);
  }

  /** Two 25-character strings that agree on every field and separator are equal. */
  lemma SameLayout(f: string, s: string)
    requires |f| == 25 && |s| == 25
    requires f[0..4] == s[0..4] && f[4] == s[4] && f[5..7] == s[5..7] && f[7] == s[7]
    requires f[8..10] == s[8..10] && f[10] == s[10] && f[11..13] == s[11..13] && f[13] == s[13]
    requires f[14..16] == s[14..16] && f[16] == s[16] && f[17..19] == s[17..19] && f[19] == s[19]
    requires f[20..22] == s[20..22] && f[22] == s[22] && f[23..25] == s[23..25]
    ensures f == s
  {
    forall i | 0 <= i < 25 ensures f[i] == s[i] {
      if i < 4 { assert f[i] == f[0..4][i]; }
      else if 5 <= i < 7 { assert f[i] == f[5..7][i - 5]; }
      else if 8 <= i < 10 { assert f[i] == f[8..10][i - 8]; }
      else if 11 <= i < 13 { assert f[i] == f[11..13][i - 11]; }
      else if 14 <= i < 16 { assert f[i] == f[14..16][i - 14]; }
      else if 17 <= i < 19 { assert f[i] == f[17..19][i - 17]; }
      else if 20 <= i < 22 { assert f[i] == f[20..22][i - 20]; }
      else if 23 <= i < 25 { assert f[i] == f[23..25][i - 23]; }
    }
  }

  /**
   * The parser accepts exactly the strings that are the format of some
   * timestamp; everything else is an Invalid Date.
   */
  lemma ParseSucceedsExactlyOnFormatted(s: string)
    ensures ParseGoogleDate(s).Some? <==> exists t :: Writable(t) && Format(t) == s
  {
    if ParseGoogleDate(s).Some? {
      assert Matches(s);
      FormatScan(s);
      assert Writable(Scan(s)) && Format(Scan(s)) == s;
    }
    if exists t :: Writable(t) && Format(t) == s {
      var t :| Writable(t) && Format(t) == s;
      ParseFormat(t);
    }
  }

  const ExampleStart := "2024-06-01T10:00:00-04:00"

  /** The timed start used as an example for the calendar: the offset is not applied. */
  lemma ParseExample()
    ensures ParseGoogleDate(ExampleStart) == Some(DateArgs(2024, 5, 1, 10, 0))
  {
    ExampleMatches();
    ExampleFields();
    ParseFields(ExampleStart);
    ExampleDecimals();
  }

  /** A valid RFC 3339 date-time with fractional seconds is not read: it gives an Invalid Date. */
  lemma FractionalSecondsRejected()
    ensures ParseGoogleDate("2024-06-01T10:00:00.000-04:00") == None
  {
    assert !Matches("2024-06-01T10:00:00.000-04:00");
  }

  lemma ExampleMatches()
    ensures Matches(ExampleStart)
  {
    assert ExampleStart == ['2', '0', '2', '4', '-', '0', '6', '-', '0', '1', 'T', '1', '0', ':', '0', '0', ':', '0', '0', '-', '0', '4', ':', '0', '0'];
  }

  lemma ExampleFields()
    ensures ExampleStart[0..4] == "2024" && ExampleStart[5..7] == "06" && ExampleStart[8..10] == "01"
    ensures ExampleStart[11..13] == "10" && ExampleStart[14..16] == "00"
  {
    var s := ExampleStart;
    assert s[0..4] == ['2', '0', '2', '4'] && s[5..7] == ['0', '6'] && s[8..10] == ['0', '1'];
    assert s[11..13] == ['1', '0'] && s[14..16] == ['0', '0'];
  }

  lemma ExampleDecimals()
    ensures Decimal("2024") == 2024 && Decimal("06") == 6 && Decimal("01") == 1
    ensures Decimal("10") == 10 && Decimal("00") == 0
  {
    assert Decimal("2") == 2 && Decimal("0") == 0 && Decimal("1") == 1 && Decimal("6") == 6;
    assert Decimal("20") == 20 by { assert "20"[..1] == "2"; }
    assert Decimal("202") == 202 by { assert "202"[..2] == "20"; }
    assert Decimal("2024") == 2024 by { assert "2024"[..3] == "202"; }
    assert Decimal("06") == 6 by { assert "06"[..1] == "0"; }
    assert Decimal("01") == 1 by { assert "01"[..1] == "0"; }
    assert Decimal("10") == 10 by { assert "10"[..1] == "1"; }
    assert Decimal("00") == 0 by { assert "00"[..1] == "0"; }
  }
}
