/** The `%H:%M` pattern the settings file uses for its trigger time, both
    ways, as chrono's `format` and `NaiveTime::parse_from_str` treat it. */
module TimeFormat {
  import opened Options
  import opened Clock

  predicate IsDigit(c: char) {
    '0' <= c <= '9'
  }

  function DigitValue(c: char): (v: nat)
    requires IsDigit(c)
    ensures v < 10
  {
    c as int - '0' as int
  }

  function DigitChar(v: nat): (c: char)
    requires v < 10
    ensures IsDigit(c) && DigitValue(c) == v
  {
    ('0' as int + v) as char
  }

  /** A field of `%H` or `%M`: two digits, zero-padded. */
  function TwoDigits(v: nat): (s: string)
    requires v < 100
    ensures |s| == 2 && IsDigit(s[0]) && IsDigit(s[1])
    ensures DigitValue(s[0]) * 10 + DigitValue(s[1]) == v
  {
    [DigitChar(v / 10), DigitChar(v % 10)]
  }

  /** `time.format("%H:%M")`: hour and minute, zero-padded; seconds and the
      fraction of a second are dropped. */
  function Format(t: TimeOfDay): (s: string)
    ensures IsCanonical(s)
  {
    TwoDigits(Hour(t)) + ":" + TwoDigits(Minute(t))
  }

  /** The exact shape `Format` produces: `DD:DD`. */
  predicate IsCanonical(s: string) {
    |s| == 5 && IsDigit(s[0]) && IsDigit(s[1]) && s[2] == ':' && IsDigit(s[3]) && IsDigit(s[4])
  }

  /** Unicode White_Space, which Rust's `str::trim_start` removes. */
  predicate IsWhiteSpace(c: char) {
    '\U{0009}' <= c <= '\U{000D}' || c == ' ' || c == '\U{0085}' || c == '\U{00A0}'
    || c == '\U{1680}' || '\U{2000}' <= c <= '\U{200A}' || c == '\U{2028}' || c == '\U{2029}'
    || c == '\U{202F}' || c == '\U{205F}' || c == '\U{3000}'
  }

  /** `str::trim_start` */
  function TrimStart(s: string): (r: string)
    ensures |r| <= |s| && r == s[|s| - |r|..]
    ensures r == [] || !IsWhiteSpace(r[0])
    ensures forall i :: 0 <= i < |s| - |r| ==> IsWhiteSpace(s[i])
  {
    if s != [] && IsWhiteSpace(s[0]) then TrimStart(s[1..]) else s
  }

  /** chrono's numeric field scanner for `%H` and `%M`: leading white space
      is skipped, then one or two ASCII digits are read; the value and the
      rest of the input come back, or `None` when no digit follows. */
  function ScanNumber(s: string): (r: Option<(nat, string)>)
    ensures r.Some? ==> r.value.0 < 100 && |r.value.1| < |s|
  {
    var u := TrimStart(s);
    if u == [] || !IsDigit(u[0]) then None
    else if |u| >= 2 && IsDigit(u[1]) then
      var v: nat := DigitValue(u[0]) * 10 + DigitValue(u[1]);
      Some((v, u[2..]))
    else
      var v: nat := DigitValue(u[0]);
      Some((v, u[1..]))
  }

  /** `NaiveTime::parse_from_str(s, "%H:%M")`: an hour below 24, a `:`, a
      minute below 60 and nothing after it; the seconds are zero. Any other
      input is an error (`None`). */
  function Parse(s: string): (r: Option<TimeOfDay>)
    ensures r.Some? ==> IsWholeMinute(r.value)
  {
    match ScanNumber(s)
    case None => None
    case Some((hour, rest)) =>
      if rest == [] || rest[0] != ':' then None
      else
        match ScanNumber(rest[1..])
        case None => None
        case Some((minute, tail)) =>
          if tail != [] then None else FromHms(hour, minute, 0)
  }

  /** The whole minute a time falls in: what survives a trip through
      `Format` and `Parse`. */
  function TruncateToMinute(t: TimeOfDay): (r: TimeOfDay)
    ensures IsWholeMinute(r) && r <= t < r + NanosPerMinute
  {
    MinuteOfDay(t) * NanosPerMinute
  }

  /** Formatting then parsing gives back the time's hour and minute with the
      seconds dropped: the identity on whole minutes. */
  lemma ParseFormat(t: TimeOfDay)
    ensures Parse(Format(t)) == Some(TruncateToMinute(t))
    ensures IsWholeMinute(t) ==> Parse(Format(t)) == Some(t)
  {
    var s := Format(t);
    ParseCanonical(s);
    FormatFields(t);
    FromHmsOfFields(t);
  }

  /** The fields `Format` writes spell out the time's hour and minute. */
  lemma FormatFields(t: TimeOfDay)
    ensures CanonicalHour(Format(t)) == Hour(t) && CanonicalMinute(Format(t)) == Minute(t)
  {
  }

  /** Two leading digits are read as one two-digit field. */
  lemma ScanTwoDigits(s: string)
    requires |s| >= 2 && IsDigit(s[0]) && IsDigit(s[1])
    ensures ScanNumber(s) == Some((DigitValue(s[0]) * 10 + DigitValue(s[1]), s[2..]))
  {
  }

  /** A digit not followed by another is read as a one-digit field. */
  lemma ScanOneDigit(s: string)
    requires s != [] && IsDigit(s[0]) && (|s| == 1 || !IsDigit(s[1]))
    ensures ScanNumber(s) == Some((DigitValue(s[0]), s[1..]))
  {
  }

  /** Once both fields have been scanned and nothing follows the minute, the
      result is `from_hms_opt(hour, minute, 0)`. */
  lemma ParseFields(s: string, hour: nat, rest: string, minute: nat)
    requires ScanNumber(s) == Some((hour, rest))
    requires rest != [] && rest[0] == ':'
    requires ScanNumber(rest[1..]) == Some((minute, []))
    ensures Parse(s) == FromHms(hour, minute, 0)
  {
  }

  /** The hour and minute a `DD:DD` string spells out. */
  function CanonicalHour(s: string): nat
    requires IsCanonical(s)
  {
    DigitValue(s[0]) * 10 + DigitValue(s[1])
  }

  function CanonicalMinute(s: string): nat
    requires IsCanonical(s)
  {
    DigitValue(s[3]) * 10 + DigitValue(s[4])
  }

  /** On a `DD:DD` string the parser reads both fields whole and only the
      range check can fail. */
  lemma ParseCanonical(s: string)
    requires IsCanonical(s)
    ensures Parse(s) == FromHms(CanonicalHour(s), CanonicalMinute(s), 0)
  {
    ScanTwoDigits(s);
    var rest := s[2..];
    assert rest[1..] == s[3..];
    ScanTwoDigits(s[3..]);
    assert s[3..][2..] == [];
    ParseFields(s, CanonicalHour(s), rest, CanonicalMinute(s));
  }

  /** Parsing a string of the canonical shape, then formatting the result,
      gives back the same string: on `DD:DD` strings `Parse` and `Format` are
      inverse. */
  lemma FormatParse(s: string)
    requires IsCanonical(s) && Parse(s).Some?
    ensures Format(Parse(s).value) == s
  {
    ParseCanonical(s);
    var t := Parse(s).value;
    FormatOfFields(t, s);
  }

  /** A time whose hour and minute are those a `DD:DD` string spells out is
      formatted as that string. */
  lemma FormatOfFields(t: TimeOfDay, s: string)
    requires IsCanonical(s)
    requires Hour(t) == CanonicalHour(s) && Minute(t) == CanonicalMinute(s)
    ensures Format(t) == s
  {
  }

  /** A zero-padded `HH:MM` string parses exactly when the hour is below 24
      and the minute below 60, and then to that hour and minute. */
  lemma ParseInRange(hour: nat, minute: nat)
    requires hour < 100 && minute < 100
    ensures var r := Parse(TwoDigits(hour) + ":" + TwoDigits(minute));
            (r.Some? <==> hour < 24 && minute < 60)
            && (r.Some? ==> Hour(r.value) == hour && Minute(r.value) == minute && IsWholeMinute(r.value))
  {
    var s := TwoDigits(hour) + ":" + TwoDigits(minute);
    assert IsCanonical(s);
    ParseCanonical(s);
  }

  /** Only white space. */
  predicate AllWhiteSpace(w: string) {
    forall i :: 0 <= i < |w| ==> IsWhiteSpace(w[i])
  }

  /** A numeric field as chrono's scanner reads it: one or two ASCII digits. */
  predicate IsField(h: string) {
    (|h| == 1 || |h| == 2) && forall i :: 0 <= i < |h| ==> IsDigit(h[i])
  }

  function FieldValue(h: string): (v: nat)
    requires IsField(h)
    ensures v < 100
  {
    if |h| == 1 then DigitValue(h[0]) else DigitValue(h[0]) * 10 + DigitValue(h[1])
  }

  /** Skipping white space stops at the first character that is not. */
  lemma {:induction false} TrimStartPast(w: string, u: string)
    requires AllWhiteSpace(w) && (u == [] || !IsWhiteSpace(u[0]))
    ensures TrimStart(w + u) == u
  {
    if w != [] {
      assert (w + u)[0] == w[0];
      assert (w + u)[1..] == w[1..] + u;
      TrimStartPast(w[1..], u);
    }
  }

  /** What a successful field scan consumed: white space, then a field. */
  lemma ScanShape(s: string) returns (w: string, h: string)
    requires ScanNumber(s).Some?
    ensures AllWhiteSpace(w) && IsField(h) && FieldValue(h) == ScanNumber(s).value.0
    ensures s == w + h + ScanNumber(s).value.1
  {
    var u := TrimStart(s);
    w := s[..|s| - |u|];
    assert s == w + u;
    var rest: string;
    h, rest := FieldPrefix(u);
    assert ScanNumber(s) == Some((FieldValue(h), rest));
    assert s == w + h + rest;
  }

  /** The digits the scanner reads at the start of `u`, and what follows. */
  lemma FieldPrefix(u: string) returns (h: string, rest: string)
    requires u != [] && IsDigit(u[0])
    ensures IsField(h) && u == h + rest
    ensures |u| >= 2 && IsDigit(u[1]) ==>
              FieldValue(h) == DigitValue(u[0]) * 10 + DigitValue(u[1]) && rest == u[2..]
    ensures !(|u| >= 2 && IsDigit(u[1])) ==> FieldValue(h) == DigitValue(u[0]) && rest == u[1..]
  {
    if |u| >= 2 && IsDigit(u[1]) {
      h, rest := u[..2], u[2..];
    } else {
      h, rest := u[..1], u[1..];
    }
  }

  /** White space, a field and a rest the field cannot extend scan as that
      field followed by the rest. */
  lemma ScanOfShape(w: string, h: string, rest: string)
    requires AllWhiteSpace(w) && IsField(h)
    requires |h| == 2 || rest == [] || !IsDigit(rest[0])
    ensures ScanNumber(w + h + rest) == Some((FieldValue(h), rest))
  {
    assert w + h + rest == w + (h + rest);
    TrimStartPast(w, h + rest);
    var u := h + rest;
    if |h| == 2 {
      assert u[2..] == rest;
    } else {
      assert u[1..] == rest;
    }
  }

  /** The steps of an accepted parse: an hour field, `:`, a minute field
      ending the input, and the range check. */
  lemma ParseSteps(s: string)
    requires Parse(s).Some?
    ensures ScanNumber(s).Some?
    ensures var rest := ScanNumber(s).value.1;
            rest != [] && rest[0] == ':' && ScanNumber(rest[1..]).Some?
            && ScanNumber(rest[1..]).value.1 == []
            && Parse(s) == FromHms(ScanNumber(s).value.0, ScanNumber(rest[1..]).value.0, 0)
  {
  }

  /** Every string `Parse` accepts has chrono's shape for `%H:%M`: optional
      white space, an hour of one or two digits below 24, `:`, optional white
      space and a minute of one or two digits below 60, with nothing after
      it; the time it yields has that hour and minute. */
  lemma ParseShape(s: string) returns (w1: string, h: string, w2: string, m: string)
    requires Parse(s).Some?
    ensures s == w1 + h + ":" + w2 + m
    ensures AllWhiteSpace(w1) && IsField(h) && AllWhiteSpace(w2) && IsField(m)
    ensures FieldValue(h) < 24 && FieldValue(m) < 60
    ensures Hour(Parse(s).value) == FieldValue(h) && Minute(Parse(s).value) == FieldValue(m)
  {
    ParseSteps(s);
    var rest := ScanNumber(s).value.1;
    w1, h := ScanShape(s);
    w2, m := ScanShape(rest[1..]);
    JoinFields(s, w1, h, rest, w2, m);
  }

  /** Reassembles the input from the pieces the two scans consumed. */
  lemma JoinFields(s: string, w1: string, h: string, rest: string, w2: string, m: string)
    requires s == w1 + h + rest && rest != [] && rest[0] == ':' && rest[1..] == w2 + m + []
    ensures s == w1 + h + ":" + w2 + m
  {
    assert rest == ":" + (w2 + m);
  }

  /** The minute field ends the input. */
  lemma ScanLastField(w: string, m: string)
    requires AllWhiteSpace(w) && IsField(m)
    ensures ScanNumber(w + m) == Some((FieldValue(m), []))
  {
    ScanOfShape(w, m, []);
    assert w + m + [] == w + m;
  }

  /** Conversely every string of that shape parses to the hour and minute it
      spells out, and is rejected exactly when they are out of range. */
  lemma ParseOfShape(w1: string, h: string, w2: string, m: string)
    requires AllWhiteSpace(w1) && IsField(h) && AllWhiteSpace(w2) && IsField(m)
    ensures Parse(w1 + h + ":" + w2 + m) == FromHms(FieldValue(h), FieldValue(m), 0)
  {
    var rest := [':'] + (w2 + m);
    assert rest[1..] == w2 + m;
    assert w1 + h + ":" + w2 + m == w1 + h + rest;
    ScanOfShape(w1, h, rest);
    ScanLastField(w2, m);
    ParseFields(w1 + h + rest, FieldValue(h), rest, FieldValue(m));
  }

  /** The field scanner takes one or two digits, so a single-digit hour or
      minute is accepted: `"8:5"` is 08:05. */
  lemma ParseSingleDigits()
    ensures Parse("8:5") == Some(8 * NanosPerHour + 5 * NanosPerMinute)
  {
    var s := "8:5";
    ScanOneDigit(s);
    assert s[1..] == ":5" && s[1..][1..] == "5";
    ScanOneDigit("5");
    ParseFields(s, 8, ":5", 5);
    MinuteFieldsOf(8 * 60 + 5);
  }
}
