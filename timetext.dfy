/** The text forms of times the form reads and writes: the stored
    timestamp `YYYY-MM-DD HH:MM:SS` (`strftime` on write,
    `datetime.fromisoformat` on read), today's `YYYY-MM-DD`, and the
    booked slot `"HH:MM-HH:MM"` read by app.py `parse_time_range`. */
module TimeText {
  import opened Wrappers
  import opened Chars
  import opened Calendar

  /** `date.strftime('%Y-%m-%d')`. */
  function FormatDate(d: Date): (s: string)
    requires ValidDate(d)
    ensures |s| == 10
  {
    Pad4(d.year) + "-" + Pad2(d.month) + "-" + Pad2(d.day)
  }

  /** `datetime.strftime('%Y-%m-%d %H:%M:%S')`; it starts with the date. */
  function FormatDateTime(dt: DateTime): (s: string)
    requires ValidDateTime(dt)
    ensures |s| == 19 && s[..10] == FormatDate(dt.date)
  {
    FormatDate(dt.date) + " " + Pad2(dt.hour) + ":" + Pad2(dt.minute) + ":" + Pad2(dt.second)
  }

  /** The digit groups and separators of `YYYY-MM-DD?HH:MM:SS`; Python's
      `fromisoformat` takes any single character between date and time. */
  predicate TimestampShape(s: string)
  {
    && |s| == 19
    && s[4] == '-' && s[7] == '-' && s[13] == ':' && s[16] == ':'
    && AllDigits(s[0..4]) && AllDigits(s[5..7]) && AllDigits(s[8..10])
    && AllDigits(s[11..13]) && AllDigits(s[14..16]) && AllDigits(s[17..19])
  }

  /** `datetime.fromisoformat(s)` on the layout the form writes: `None`
      where Python raises `ValueError` (bad shape or a field out of range). */
  function ParseDateTime(s: string): (r: Option<DateTime>)
    ensures r.Some? ==> ValidDateTime(r.value)
    ensures r.Some? ==> TimestampShape(s)
  {
    if TimestampShape(s) then
      var dt := DateTime(Date(Number(s[0..4]), Number(s[5..7]), Number(s[8..10])),
                         Number(s[11..13]), Number(s[14..16]), Number(s[17..19]));
      if ValidDateTime(dt) then Some(dt) else None
    else None
  }

  /** Reading back a written timestamp gives the same instant. */
  lemma ParseFormatDateTime(dt: DateTime)
    requires ValidDateTime(dt)
    ensures ParseDateTime(FormatDateTime(dt)) == Some(dt)
  {
    var s := FormatDateTime(dt);
    assert s[0..4] == Pad4(dt.date.year);
    assert s[5..7] == Pad2(dt.date.month);
    assert s[8..10] == Pad2(dt.date.day);
    assert s[11..13] == Pad2(dt.hour);
    assert s[14..16] == Pad2(dt.minute);
    assert s[17..19] == Pad2(dt.second);
  }

  /** Conversely, a timestamp that parses is rewritten unchanged, except
      that its separator becomes a space. */
  lemma FormatParseDateTime(s: string)
    requires ParseDateTime(s).Some?
    ensures FormatDateTime(ParseDateTime(s).value) == s[..10] + " " + s[11..]
  {
    Pad4OfNumber(s[0..4]);
    Pad2OfNumber(s[5..7]);
    Pad2OfNumber(s[8..10]);
    Pad2OfNumber(s[11..13]);
    Pad2OfNumber(s[14..16]);
    Pad2OfNumber(s[17..19]);
    assert s[..10] == s[0..4] + "-" + s[5..7] + "-" + s[8..10];
    assert s[11..] == s[11..13] + ":" + s[14..16] + ":" + s[17..19];
  }

  /** A timestamp written on day `d` carries that day's date text, which
      is what the day-scoped filters look for. */
  lemma FormatDateTimeContainsDate(dt: DateTime)
    requires ValidDateTime(dt)
    ensures Contains(FormatDateTime(dt), FormatDate(dt.date))
  {
    var s := FormatDateTime(dt);
    assert s == FormatDate(dt.date) + s[10..];
    ContainsPrefix(FormatDate(dt.date), s[10..]);
  }

  /** `datetime.strptime(s, '%H:%M').time()`: one or two ASCII digits of
      hour (at most 23), a colon, one or two digits of minute (at most 59),
      and nothing else. */
  function ParseClock(s: string): (r: Option<TimeOfDay>)
    ensures r.Some? ==> ValidTime(r.value)
  {
    match IndexOf(s, ':')
    case None => None
    case Some(k) =>
      var h, m := s[..k], s[k + 1..];
      if 1 <= |h| <= 2 && 1 <= |m| <= 2 && AllDigits(h) && AllDigits(m)
         && Number(h) < 24 && Number(m) < 60
      then Some(TimeOfDay(Number(h), Number(m)))
      else None
  }

  /** A field of `%H:%M` that reads as `n`: its two-digit numeral or, for
      `n` below ten, its single digit. */
  predicate FieldText(f: string, n: int)
    requires 0 <= n < 100
  {
    f == Pad2(n) || (n < 10 && f == [DigitChar(n)])
  }

  /** One or two digits are the field text of their own value. */
  lemma DigitsAreFieldText(f: string)
    requires 1 <= |f| <= 2 && AllDigits(f)
    ensures Number(f) < 100 && FieldText(f, Number(f))
  {
    if |f| == 2 {
      Pad2OfNumber(f);
    } else {
      assert f[..0] == [];
      assert Number(f) == DigitValue(f[0]);
      assert DigitChar(DigitValue(f[0])) == f[0];
    }
  }

  /** A field text is one or two digits spelling its value. */
  lemma FieldTextDigits(f: string, n: int)
    requires 0 <= n < 100 && FieldText(f, n)
    ensures 1 <= |f| <= 2 && AllDigits(f) && Number(f) == n
  {
    if f != Pad2(n) {
      assert f[..0] == [];
      assert Number(f) == DigitValue(f[0]);
    }
  }

  /** `ParseClock` accepts exactly the texts `H:M` whose hour and minute
      fields are one or two digits spelling a valid time, and reads them as
      that time: "9:5" is 09:05, while "24:00", "ab:cd" and "09:00:00" are
      refused. */
  lemma ParseClockExact(s: string, t: TimeOfDay)
    ensures ParseClock(s) == Some(t) <==>
              ValidTime(t) && exists k :: 0 <= k < |s| && s[k] == ':'
                                            && FieldText(s[..k], t.hour) && FieldText(s[k + 1..], t.minute)
  {
    if ParseClock(s) == Some(t) {
      var k := ParseClockFields(s, t);
    }
    if ValidTime(t) && exists k :: 0 <= k < |s| && s[k] == ':'
                                  && FieldText(s[..k], t.hour) && FieldText(s[k + 1..], t.minute) {
      var k :| 0 <= k < |s| && s[k] == ':' && FieldText(s[..k], t.hour) && FieldText(s[k + 1..], t.minute);
      ParseClockFrom(s, t, k);
    }
  }

  /** The colon and the two fields of a text `ParseClock` accepts. */
  lemma ParseClockFields(s: string, t: TimeOfDay) returns (k: int)
    requires ParseClock(s) == Some(t)
    ensures ValidTime(t) && 0 <= k < |s| && s[k] == ':'
    ensures FieldText(s[..k], t.hour) && FieldText(s[k + 1..], t.minute)
  {
    k := IndexOf(s, ':').value;
    DigitsAreFieldText(s[..k]);
    DigitsAreFieldText(s[k + 1..]);
  }

  /** Two field texts around a colon are accepted as their time. */
  lemma ParseClockFrom(s: string, t: TimeOfDay, k: int)
    requires ValidTime(t) && 0 <= k < |s| && s[k] == ':'
    requires FieldText(s[..k], t.hour) && FieldText(s[k + 1..], t.minute)
    ensures ParseClock(s) == Some(t)
  {
    FieldTextDigits(s[..k], t.hour);
    FieldTextDigits(s[k + 1..], t.minute);
    forall j | 0 <= j < k ensures s[j] != ':' {
      assert s[j] == s[..k][j];
    }
    assert IndexOf(s, ':') == Some(k);
  }

  /** app.py `parse_time_range`: the start of a booked slot is the text
      before the first `-`, stripped and read as `%H:%M`; what follows the
      `-` is never looked at. */
  function ParseTimeRange(s: string): (r: Option<TimeOfDay>)
    ensures r.Some? ==> ValidTime(r.value)
    ensures '-' !in s ==> r.None?
  {
    match IndexOf(s, '-')
    case None => None
    case Some(k) => ParseClock(Strip(s[..k]))
  }

  /** `HH:MM` with two-digit fields, as the slots are written. */
  function ClockText(t: TimeOfDay): (s: string)
    requires ValidTime(t)
    ensures |s| == 5 && s[2] == ':'
  {
    Pad2(t.hour) + ":" + Pad2(t.minute)
  }

  lemma ParseClockText(t: TimeOfDay)
    requires ValidTime(t)
    ensures ParseClock(ClockText(t)) == Some(t)
  {
    var s := ClockText(t);
    assert ':' !in s[..2];
    assert s[..2] == Pad2(t.hour) && s[3..] == Pad2(t.minute);
  }

  /** The booked start is read from any slot text of the form
      `<spaces>HH:MM<spaces>-<anything>`: both `"09:00-09:30"` and
      `"09:00 - 09:30"`, and also slots whose end is missing or garbled. */
  lemma {:induction false} ParseTimeRangeStart(w1: string, t: TimeOfDay, w2: string, rest: string)
    requires ValidTime(t) && AllSpace(w1) && AllSpace(w2)
    ensures ParseTimeRange(w1 + ClockText(t) + w2 + "-" + rest) == Some(t)
  {
    var c := ClockText(t);
    var s := w1 + c + w2 + "-" + rest;
    var k := |w1| + |c| + |w2|;
    assert s[..k] == w1 + c + w2;
    assert s[k] == '-';
    forall i | 0 <= i < k ensures s[i] != '-' {
      if i < |w1| {
        assert s[i] == w1[i];
      } else if i < |w1| + |c| {
        assert s[i] == c[i - |w1|];
      } else {
        assert s[i] == w2[i - |w1| - |c|];
      }
    }
    assert '-' !in s[..k];
    assert IndexOf(s, '-') == Some(k);
    StripPadded(w1, c, w2);
    ParseClockText(t);
  }

  /** A text `ParseClock` accepts is made of digits and one colon only. */
  lemma ClockChars(c: string)
    requires ParseClock(c).Some?
    ensures |c| >= 3
    ensures forall p :: 0 <= p < |c| ==> IsDigit(c[p]) || c[p] == ':'
  {
    var k := IndexOf(c, ':').value;
    var h, m := c[..k], c[k + 1..];
    forall p | 0 <= p < |c| ensures IsDigit(c[p]) || c[p] == ':' {
      if p < k {
        assert c[p] == h[p];
      } else if p > k {
        assert c[p] == m[p - k - 1];
      }
    }
  }

  /** A slot that is whitespace, a clock text, whitespace and then a dash
      starts at that clock's time, whatever follows the dash. */
  lemma ParseTimeRangeFrom(s: string, t: TimeOfDay, i: int, j: int, k: int)
    requires 0 <= i <= j <= k < |s| && s[k] == '-'
    requires AllSpace(s[..i]) && AllSpace(s[j..k]) && ParseClock(s[i..j]) == Some(t)
    ensures ParseTimeRange(s) == Some(t)
  {
    var w1, c, w2 := s[..i], s[i..j], s[j..k];
    ClockChars(c);
    forall p | 0 <= p < k ensures s[p] != '-' {
      if p < i {
        assert s[p] == w1[p];
      } else if p < j {
        assert s[p] == c[p - i];
      } else {
        assert s[p] == w2[p - j];
      }
    }
    assert IndexOf(s, '-') == Some(k);
    PrefixSplit(s, i, j, k);
    StripPadded(w1, c, w2);
  }

  /** A prefix is the concatenation of its consecutive slices. */
  lemma PrefixSplit(s: string, i: int, j: int, k: int)
    requires 0 <= i <= j <= k <= |s|
    ensures s[..k] == s[..i] + s[i..j] + s[j..k]
  {
  }

  /** Every slot whose start parses has the shape `ParseTimeRangeFrom`
      describes. */
  lemma ParseTimeRangeShape(s: string, t: TimeOfDay) returns (i: int, j: int, k: int)
    requires ParseTimeRange(s) == Some(t)
    ensures 0 <= i <= j <= k < |s| && s[k] == '-'
    ensures AllSpace(s[..i]) && AllSpace(s[j..k]) && ParseClock(s[i..j]) == Some(t)
  {
    k := IndexOf(s, '-').value;
    var p := s[..k];
    assert ParseClock(Strip(p)) == Some(t);
    i, j := StripBounds(p);
    PrefixSlices(s, i, j, k);
  }

  /** Slices of a prefix are slices of the whole. */
  lemma PrefixSlices(s: string, i: int, j: int, k: int)
    requires 0 <= i <= j <= k <= |s|
    ensures s[..k][..i] == s[..i] && s[..k][i..j] == s[i..j] && s[..k][j..] == s[j..k]
  {
  }

  /** `parse_time_range` gives `t` exactly for the texts that are
      whitespace, an `%H:%M` text of `t` (see `ParseClockExact`),
      whitespace, a dash and anything; every other text, such as one whose
      head is not a clock or that has no dash, gives `None`. */
  lemma ParseTimeRangeExact(s: string, t: TimeOfDay)
    ensures ParseTimeRange(s) == Some(t) <==>
              exists i, j, k :: 0 <= i <= j <= k < |s| && s[k] == '-'
                                && AllSpace(s[..i]) && AllSpace(s[j..k]) && ParseClock(s[i..j]) == Some(t)
  {
    if ParseTimeRange(s) == Some(t) {
      var i, j, k := ParseTimeRangeShape(s, t);
    }
    if exists i, j, k :: 0 <= i <= j <= k < |s| && s[k] == '-'
                         && AllSpace(s[..i]) && AllSpace(s[j..k]) && ParseClock(s[i..j]) == Some(t) {
      var i, j, k :| 0 <= i <= j <= k < |s| && s[k] == '-'
                     && AllSpace(s[..i]) && AllSpace(s[j..k]) && ParseClock(s[i..j]) == Some(t);
      ParseTimeRangeFrom(s, t, i, j, k);
    }
  }

  /** The worked examples of the slot format, with and without spaces
      around the dash, and a text with no dash at all. */
  lemma ParseTimeRangeCompactExample(slot: string)
    requires slot == "09:00-09:30"
    ensures ParseTimeRange(slot) == Some(TimeOfDay(9, 0))
  {
    NineOClock();
    assert slot == [] + ClockText(TimeOfDay(9, 0)) + [] + "-" + "09:30";
    ParseTimeRangeStart([], TimeOfDay(9, 0), [], "09:30");
  }

  lemma ParseTimeRangeSpacedExample(slot: string)
    requires slot == "09:00 - 09:30"
    ensures ParseTimeRange(slot) == Some(TimeOfDay(9, 0))
  {
    NineOClock();
    assert AllSpace(" ");
    assert slot == [] + ClockText(TimeOfDay(9, 0)) + " " + "-" + " 09:30";
    ParseTimeRangeStart([], TimeOfDay(9, 0), " ", " 09:30");
  }

  lemma ParseTimeRangeInvalidExample(slot: string)
    requires slot == "invalid"
    ensures ParseTimeRange(slot) == None
  {
    assert forall i | 0 <= i < |slot| :: slot[i] != '-';
  }

  lemma NineOClock()
    ensures ClockText(TimeOfDay(9, 0)) == "09:00"
  {
    assert DigitChar(0) == '0' && DigitChar(9) == '9';
  }

  // ---------------------------------------------------------------------
  // Where a date text can occur inside a stored timestamp.
  // ---------------------------------------------------------------------

  /** Inside a stored timestamp, a date text can only occur at the start. */
  lemma DateTextPosition(s: string, dt: DateTime, today: Date, i: int)
    requires ValidDate(today) && ParseDateTime(s) == Some(dt)
    requires OccursAt(s, FormatDate(today), i)
    ensures i == 0 && today == dt.date
  {
    var t := FormatDate(today);
    DateTextShape(today);
    TimestampDigits(s);
    assert s[i + 1] == t[1] && s[i + 4] == t[4];
    assert i == 0;
    assert t == s[..10];
    FormatParseDateTime(s);
    assert FormatDate(dt.date) == FormatDateTime(dt)[..10];
    FormatDateInjective(today, dt.date);
  }

  /** The characters of a timestamp other than its five separators are digits. */
  lemma TimestampDigits(s: string)
    requires TimestampShape(s)
    ensures forall j :: 0 <= j < 19 && j != 4 && j != 7 && j != 10 && j != 13 && j != 16 ==> IsDigit(s[j])
  {
    forall j | 0 <= j < 19 && j != 4 && j != 7 && j != 10 && j != 13 && j != 16 ensures IsDigit(s[j]) {
      if j < 4 { assert s[j] == s[0..4][j]; }
      else if j < 7 { assert s[j] == s[5..7][j - 5]; }
      else if j < 10 { assert s[j] == s[8..10][j - 8]; }
      else if j < 13 { assert s[j] == s[11..13][j - 11]; }
      else if j < 16 { assert s[j] == s[14..16][j - 14]; }
      else { assert s[j] == s[17..19][j - 17]; }
    }
  }

  lemma DateTextShape(d: Date)
    requires ValidDate(d)
    ensures var t := FormatDate(d); IsDigit(t[1]) && t[4] == '-' && t[7] == '-'
  {
    var t := FormatDate(d);
    assert t[1] == Pad4(d.year)[1];
  }

  /** Distinct dates have distinct date texts. */
  lemma FormatDateInjective(a: Date, b: Date)
    requires ValidDate(a) && ValidDate(b) && FormatDate(a) == FormatDate(b)
    ensures a == b
  {
    DateOfText(a);
    DateOfText(b);
  }

  /** A formatted date determines the date. */
  lemma DateOfText(d: Date)
    requires ValidDate(d)
    ensures var t := FormatDate(d);
            AllDigits(t[0..4]) && AllDigits(t[5..7]) && AllDigits(t[8..10])
            && d == Date(Number(t[0..4]), Number(t[5..7]), Number(t[8..10]))
  {
    var t := FormatDate(d);
    assert t[0..4] == Pad4(d.year) && t[5..7] == Pad2(d.month) && t[8..10] == Pad2(d.day);
  }
}
