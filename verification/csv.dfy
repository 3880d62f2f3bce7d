/** `generateCSV`: the session log rendered as CSV, either text only or with
    sender, time of day and an mm:ss timecode, with every quoted field's
    inner double quotes doubled.  The readers in this module (`ReadQuoted`,
    `ParseTextOnly`, `ParseTimecodeCsv`) are independent reference
    definitions; the round-trip lemmas show that reading an export gives
    back exactly the logged fields. */
module Csv {
  import opened Common
  import opened SessionLog

  /** The two `:type` path segments the export endpoints accept. */
  datatype ExportType = TextOnly | WithTimecode

  /** The endpoints' type check: anything but the two names is rejected. */
  function ParseExportType(s: string): (r: Option<ExportType>)
    ensures r == Some(TextOnly) <==> s == "text-only"
    ensures r == Some(WithTimecode) <==> s == "with-timecode"
    ensures r.None? <==> s != "text-only" && s != "with-timecode"
  {
    if s == "text-only" then Some(TextOnly)
    else if s == "with-timecode" then Some(WithTimecode)
    else None
  }

  /** Returned instead of a CSV when the log is empty. */
  const NoData: string := "データがありません\n"
  const TextHeader: string := "テキスト\n"
  const TimecodeHeader: string := "送信者,送信時刻,経過時間,テキスト\n"
  /** The byte-order mark the export endpoints put before the CSV. */
  const Bom: string := "\U{FEFF}"

  function Header(t: ExportType): string
  {
    match t
    case TextOnly => TextHeader
    case WithTimecode => TimecodeHeader
  }

  // ---------------------------------------------------------------------
  // Quoting

  /** `s.replace(/"/g, '""')`. */
  function DoubleQuotes(s: string): (r: string)
    ensures |r| >= |s|
  {
    if s == [] then []
    else (if s[0] == '"' then "\"\"" else [s[0]]) + DoubleQuotes(s[1..])
  }

  /** A field as the export writes it: wrapped in `"` with inner quotes
      doubled. */
  function Quote(s: string): (r: string)
    ensures |r| >= |s| + 2 && r[0] == '"' && r[|r| - 1] == '"'
  {
    "\"" + DoubleQuotes(s) + "\""
  }

  /** Reads the rest of a quoted field whose opening quote has been consumed:
      `""` stands for one quote, a lone `"` closes the field.  Yields the
      field's content and what follows the closing quote. */
  function ReadQuotedBody(s: string): (r: Option<(string, string)>)
    ensures r.Some? ==> |r.value.1| < |s|
    decreases |s|
  {
    if s == [] then None
    else if s[0] == '"' then
      if |s| >= 2 && s[1] == '"' then
        match ReadQuotedBody(s[2..])
        case None => None
        case Some(p) => Some((['"'] + p.0, p.1))
      else Some(([], s[1..]))
    else
      match ReadQuotedBody(s[1..])
      case None => None
      case Some(p) => Some(([s[0]] + p.0, p.1))
  }

  /** Reads one quoted field at the start of `s`. */
  function ReadQuoted(s: string): (r: Option<(string, string)>)
    ensures r.Some? ==> |r.value.1| < |s|
  {
    if s == [] || s[0] != '"' then None else ReadQuotedBody(s[1..])
  }

  lemma {:induction false} ReadQuotedBodyInverse(t: string, rest: string)
    requires rest == [] || rest[0] != '"'
    ensures ReadQuotedBody(DoubleQuotes(t) + "\"" + rest) == Some((t, rest))
    decreases |t|
  {
    var s := DoubleQuotes(t) + "\"" + rest;
    if t == [] {
      assert s == "\"" + rest;
      assert s[1..] == rest;
    } else if t[0] == '"' {
      ReadQuotedBodyInverse(t[1..], rest);
      assert s == "\"\"" + (DoubleQuotes(t[1..]) + "\"" + rest);
      assert s[2..] == DoubleQuotes(t[1..]) + "\"" + rest;
      assert ['"'] + t[1..] == t;
    } else {
      ReadQuotedBodyInverse(t[1..], rest);
      assert s == [t[0]] + (DoubleQuotes(t[1..]) + "\"" + rest);
      assert s[1..] == DoubleQuotes(t[1..]) + "\"" + rest;
      assert [t[0]] + t[1..] == t;
    }
  }

  /** Un-escaping a quoted field gives back the original text, whatever it
      contains (quotes, commas, line breaks), provided the field is not
      directly followed by another quote — in the export it is followed by
      a comma or a line break. */
  lemma QuoteRoundTrip(t: string, rest: string)
    requires rest == [] || rest[0] != '"'
    ensures ReadQuoted(Quote(t) + rest) == Some((t, rest))
  {
    var s := Quote(t) + rest;
    assert s == "\"" + (DoubleQuotes(t) + "\"" + rest);
    assert s[1..] == DoubleQuotes(t) + "\"" + rest;
    ReadQuotedBodyInverse(t, rest);
  }

  // ---------------------------------------------------------------------
  // Numbers and timecodes

  function DigitChar(d: nat): char
    requires d < 10
  {
    (48 + d) as char
  }

  /** `Number.prototype.toString()` on a non-negative integer. */
  function NatToString(n: nat): (s: string)
    ensures |s| >= 1
  {
    if n < 10 then [DigitChar(n)] else NatToString(n / 10) + [DigitChar(n % 10)]
  }

  /** `Number.prototype.toString()` on an integer: a minus sign before the
      digits of a negative number. */
  function IntToString(i: int): string
  {
    if i < 0 then "-" + NatToString(-i) else NatToString(i)
  }

  /** `s.padStart(2, '0')`. */
  function Pad2(s: string): (r: string)
    ensures |r| == if |s| >= 2 then |s| else 2
    decreases 2 - |s|
  {
    if |s| >= 2 then s else Pad2("0" + s)
  }

  /** The only multiple of `b` in `[0, b)` is 0. */
  lemma SmallMultiple(k: int, b: int)
    requires b > 0 && 0 <= k * b < b
    ensures k == 0
  {
  }

  /** A multiple of `b` leaves no remainder. */
  lemma MultipleRem(q: int, b: int)
    requires b > 0
    ensures (q * b) % b == 0
  {
    var y := q * b;
    var d := y / b;
    assert y == d * b + y % b;
    assert y % b == (q - d) * b;
    SmallMultiple(q - d, b);
  }

  /** JavaScript's `%`, whose result takes the sign of the dividend: it
      differs from the dividend by a multiple of `b`, and lies in `[0, b)`
      for a non-negative dividend and in `(-b, 0]` for a negative one. */
  function JsRem(a: int, b: int): (r: int)
    requires b > 0
    ensures a >= 0 ==> 0 <= r < b && r == a % b
    ensures a < 0 ==> -b < r <= 0
    ensures (a - r) % b == 0
  {
    if a >= 0 then
      assert a - a % b == (a / b) * b;
      MultipleRem(a / b, b);
      a % b
    else
      var q := (-a) / b;
      var m := (-a) % b;
      assert -a == q * b + m;
      assert a - (-m) == (-q) * b;
      MultipleRem(-q, b);
      -m
  }

  /** The `mm:ss` column: whole seconds since session start, split into
      minutes and the remaining seconds, each padded to two characters.
      `Math.floor(x / n)` for positive `n` is Dafny's `/`. */
  function Timecode(sessionTime: int): (r: string)
    ensures |r| >= 5 && ':' in r
  {
    var elapsedSeconds := sessionTime / 1000;
    var elapsedMinutes := elapsedSeconds / 60;
    var remainingSeconds := JsRem(elapsedSeconds, 60);
    Pad2(IntToString(elapsedMinutes)) + ":" + Pad2(IntToString(remainingSeconds))
  }

  predicate IsDigits(s: string)
  {
    |s| > 0 && forall i :: 0 <= i < |s| ==> '0' <= s[i] <= '9'
  }

  /** Decimal value of a digit string (reference reading of a number). */
  function DigitsValue(s: string): nat
    requires forall i :: 0 <= i < |s| ==> '0' <= s[i] <= '9'
    decreases |s|
  {
    if s == [] then 0 else DigitsValue(s[..|s| - 1]) * 10 + (s[|s| - 1] as int - 48)
  }

  lemma {:induction false} NatToStringValue(n: nat)
    ensures IsDigits(NatToString(n))
    ensures DigitsValue(NatToString(n)) == n
    ensures n < 10 ==> |NatToString(n)| == 1
    ensures 10 <= n < 100 ==> |NatToString(n)| == 2
    decreases n
  {
    var s := NatToString(n);
    if n >= 10 {
      NatToStringValue(n / 10);
      assert s[..|s| - 1] == NatToString(n / 10);
    }
  }

  lemma {:induction false} LeadingZeroValue(s: string)
    requires forall i :: 0 <= i < |s| ==> '0' <= s[i] <= '9'
    ensures DigitsValue("0" + s) == DigitsValue(s)
    decreases |s|
  {
    if s != [] {
      var z := "0" + s;
      assert z[..|z| - 1] == "0" + s[..|s| - 1];
      LeadingZeroValue(s[..|s| - 1]);
    } else {
      assert ("0" + s)[..0] == [];
    }
  }

  lemma {:induction false} Pad2Value(s: string)
    requires IsDigits(s)
    ensures IsDigits(Pad2(s)) && DigitsValue(Pad2(s)) == DigitsValue(s)
    decreases 2 - |s|
  {
    if |s| < 2 {
      LeadingZeroValue(s);
      Pad2Value("0" + s);
    }
  }

  /** `s` split at the first occurrence of `c`: the part before it and the
      part after it. */
  function ReadUntil(s: string, c: char): (r: Option<(string, string)>)
    ensures r.Some? ==> |r.value.1| < |s|
  {
    if s == [] then None
    else if s[0] == c then Some(([], s[1..]))
    else
      match ReadUntil(s[1..], c)
      case None => None
      case Some(p) => Some(([s[0]] + p.0, p.1))
  }

  lemma {:induction false} ReadUntilSplits(a: string, c: char, b: string)
    requires c !in a
    ensures ReadUntil(a + [c] + b, c) == Some((a, b))
    decreases |a|
  {
    var s := a + [c] + b;
    if a == [] {
      assert s == [c] + b;
    } else {
      ReadUntilSplits(a[1..], c, b);
      assert s[1..] == a[1..] + [c] + b;
      assert [a[0]] + a[1..] == a;
    }
  }

  /** Reference reading of a timecode: minutes and seconds fields, both
      decimal, giving the whole seconds elapsed. */
  function ParseTimecode(tc: string): Option<nat>
  {
    FieldsValue(ReadUntil(tc, ':'))
  }

  function FieldsValue(fields: Option<(string, string)>): Option<nat>
  {
    match fields
    case None => None
    case Some(p) =>
      if IsDigits(p.0) && IsDigits(p.1) then Some(DigitsValue(p.0) * 60 + DigitsValue(p.1))
      else None
  }

  /** A number padded to two places is a digit string worth the number,
      exactly two characters long below 100. */
  lemma PaddedNumeral(n: nat)
    ensures IsDigits(Pad2(NatToString(n))) && DigitsValue(Pad2(NatToString(n))) == n
    ensures n < 100 ==> |Pad2(NatToString(n))| == 2
  {
    NatToStringValue(n);
    Pad2Value(NatToString(n));
  }

  lemma DigitsHaveNoSeparator(p: string)
    requires IsDigits(p)
    ensures ':' !in p && ',' !in p
  {
    forall i | 0 <= i < |p| ensures p[i] != ':' && p[i] != ',' {
      assert '0' <= p[i] <= '9';
    }
  }

  lemma ParseSplitTimecode(tc: string, ms: string, rs: string)
    requires IsDigits(ms) && IsDigits(rs)
    requires ReadUntil(tc, ':') == Some((ms, rs))
    ensures ParseTimecode(tc) == Some(DigitsValue(ms) * 60 + DigitsValue(rs))
  {
  }

  /** Two digit strings joined by a colon read back as minutes and
      seconds. */
  lemma ParseTimecodeFields(ms: string, rs: string)
    requires IsDigits(ms) && IsDigits(rs)
    ensures ParseTimecode(ms + ":" + rs) == Some(DigitsValue(ms) * 60 + DigitsValue(rs))
    ensures ',' !in ms + ":" + rs
  {
    var tc := ms + ":" + rs;
    DigitsHaveNoSeparator(ms);
    DigitsHaveNoSeparator(rs);
    assert tc == ms + [':'] + rs;
    ReadUntilSplits(ms, ':', rs);
    ParseSplitTimecode(tc, ms, rs);
    assert ',' !in tc by {
      forall i | 0 <= i < |tc| ensures tc[i] != ',' {
        if i < |ms| {
          assert tc[i] == ms[i];
        } else if i > |ms| {
          assert tc[i] == rs[i - |ms| - 1];
        }
      }
    }
  }

  /** For a non-negative time both fields are numerals of non-negative
      numbers. */
  lemma TimecodeFields(sessionTime: int)
    requires sessionTime >= 0
    ensures var secs := sessionTime / 1000;
            Timecode(sessionTime)
              == Pad2(NatToString(secs / 60)) + ":" + Pad2(NatToString(secs % 60))
  {
  }

  lemma MinutesAndSeconds(secs: nat)
    ensures secs / 60 * 60 + secs % 60 == secs && secs % 60 < 60
  {
  }

  /** For a non-negative elapsed time the seconds field is two digits below
      60, the minutes field at least two digits, and reading the timecode
      back gives the whole seconds elapsed. */
  lemma TimecodeRoundTrip(sessionTime: int)
    requires sessionTime >= 0
    ensures var secs := sessionTime / 1000;
            Timecode(sessionTime)
              == Pad2(NatToString(secs / 60)) + ":" + Pad2(NatToString(secs % 60))
    ensures |Pad2(NatToString(sessionTime / 1000 % 60))| == 2
    ensures sessionTime / 1000 % 60 < 60
    ensures ParseTimecode(Timecode(sessionTime)) == Some(sessionTime / 1000)
    ensures ',' !in Timecode(sessionTime)
  {
    var secs := sessionTime / 1000;
    var m, r := secs / 60, secs % 60;
    TimecodeFields(sessionTime);
    MinutesAndSeconds(secs);
    PaddedNumeral(m);
    PaddedNumeral(r);
    ParseTimecodeFields(Pad2(NatToString(m)), Pad2(NatToString(r)));
  }

  // ---------------------------------------------------------------------
  // Rows and the whole export

  /** One text-only line. */
  function TextRow(e: LogEntry): string
  {
    Quote(e.text) + "\n"
  }

  /** One with-timecode line: quoted sender, time of day, timecode, quoted
      text. */
  function TimecodeRow(e: LogEntry): string
  {
    Quote(e.sender) + "," + e.localTime + "," + Timecode(e.sessionTime) + "," + Quote(e.text) + "\n"
  }

  function Row(t: ExportType, e: LogEntry): string
  {
    match t
    case TextOnly => TextRow(e)
    case WithTimecode => TimecodeRow(e)
  }

  function Rows(t: ExportType, log: seq<LogEntry>): string
  {
    if log == [] then "" else Row(t, log[0]) + Rows(t, log[1..])
  }

  lemma {:induction false} RowsSnoc(t: ExportType, log: seq<LogEntry>, e: LogEntry)
    ensures Rows(t, log + [e]) == Rows(t, log) + Row(t, e)
    decreases |log|
  {
    if log == [] {
      assert [e][1..] == [];
    } else {
      var l := log + [e];
      assert l[0] == log[0] && l[1..] == log[1..] + [e];
      RowsSnoc(t, log[1..], e);
      var a, b, c := Row(t, log[0]), Rows(t, log[1..]), Row(t, e);
      assert Rows(t, l) == a + (b + c);
      ConcatAssoc(a, b, c);
    }
  }

  /** The CSV `generateCSV` returns for a log: the no-data sentinel for an
      empty log, otherwise the header followed by one row per entry in log
      order.  The sentinel is returned exactly when the log is empty, so no
      export of a non-empty log can be mistaken for it. */
  function CsvText(log: seq<LogEntry>, t: ExportType): (r: string)
    ensures r == NoData <==> log == []
    ensures log != [] ==> |Header(t)| <= |r| && r[..|Header(t)|] == Header(t)
  {
    if log == [] then NoData
    else
      var text := Header(t) + Rows(t, log);
      assert text[0] == Header(t)[0] != NoData[0];
      assert text[..|Header(t)|] == Header(t);
      text
  }

  lemma ConcatAssoc(a: string, b: string, c: string)
    ensures a + b + c == a + (b + c)
  {
  }

  /** Appending the row of entry `i` to the export of the first `i`
      entries gives the export of the first `i + 1`. */
  lemma GenerateStep(t: ExportType, log: seq<LogEntry>, i: nat)
    requires i < |log|
    ensures Header(t) + Rows(t, log[..i]) + Row(t, log[i]) == Header(t) + Rows(t, log[..i + 1])
  {
    assert log[..i + 1] == log[..i] + [log[i]];
    RowsSnoc(t, log[..i], log[i]);
    ConcatAssoc(Header(t), Rows(t, log[..i]), Row(t, log[i]));
  }

  /** `generateCSV(type)`: builds the export by appending one row per log
      entry, as the `forEach` loops do (the text-only and with-timecode
      loops differ only in the row they append). */
  method GenerateCsv(log: seq<LogEntry>, t: ExportType) returns (csvContent: string)
    ensures csvContent == CsvText(log, t)
  {
    if |log| == 0 {
      return NoData;
    }
    csvContent := Header(t);
    for i := 0 to |log|
      invariant csvContent == Header(t) + Rows(t, log[..i])
    {
      GenerateStep(t, log, i);
      csvContent := csvContent + Row(t, log[i]);
    }
    assert log[..|log|] == log;
  }

  // ---------------------------------------------------------------------
  // Reading an export back

  function Texts(log: seq<LogEntry>): seq<string>
  {
    if log == [] then [] else [log[0].text] + Texts(log[1..])
  }

  /** Reads text-only rows: quoted field, line break, repeated. */
  function ParseTextRows(s: string): Option<seq<string>>
    decreases |s|
  {
    if s == [] then Some([])
    else
      match ReadQuoted(s)
      case None => None
      case Some(p) =>
        if p.1 == [] || p.1[0] != '\n' then None
        else
          match ParseTextRows(p.1[1..])
          case None => None
          case Some(more) => Some([p.0] + more)
  }

  /** Reference reader for a text-only export. */
  function ParseTextOnly(s: string): Option<seq<string>>
  {
    if s == NoData then Some([])
    else if |s| >= |TextHeader| && s[..|TextHeader|] == TextHeader then ParseTextRows(s[|TextHeader|..])
    else None
  }

  lemma {:induction false} TextRowsRoundTrip(log: seq<LogEntry>)
    ensures ParseTextRows(Rows(TextOnly, log)) == Some(Texts(log))
    decreases |log|
  {
    if log != [] {
      var rest := Rows(TextOnly, log[1..]);
      var q, tail := Quote(log[0].text), "\n" + rest;
      ConcatAssoc(q, "\n", rest);
      assert Rows(TextOnly, log) == q + tail;
      QuoteRoundTrip(log[0].text, tail);
      assert tail[0] == '\n' && tail[1..] == rest;
      TextRowsRoundTrip(log[1..]);
    }
  }

  /** Reading a text-only export gives back every logged text, in order,
      and nothing else. */
  lemma TextOnlyRoundTrip(log: seq<LogEntry>)
    ensures ParseTextOnly(CsvText(log, TextOnly)) == Some(Texts(log))
  {
    if log != [] {
      var s := CsvText(log, TextOnly);
      assert s[..|TextHeader|] == TextHeader;
      assert s[|TextHeader|..] == Rows(TextOnly, log);
      TextRowsRoundTrip(log);
    }
  }

  /** What a with-timecode row carries once read back. */
  datatype TimecodeRecord = TimecodeRecord(sender: string, localTime: string, elapsedSeconds: nat, text: string)

  /** The record an entry should read back as. */
  function Record(e: LogEntry): TimecodeRecord
    requires e.sessionTime >= 0
  {
    TimecodeRecord(e.sender, e.localTime, e.sessionTime / 1000, e.text)
  }

  /** Reads one with-timecode row, returning the record and the remainder. */
  function ParseTimecodeRow(s: string): (r: Option<(TimecodeRecord, string)>)
    ensures r.Some? ==> |r.value.1| < |s|
  {
    match ReadQuoted(s)
    case None => None
    case Some(p1) =>
      if p1.1 == [] || p1.1[0] != ',' then None
      else ParseRowFields(p1.0, p1.1[1..])
  }

  /** The rest of a row after the sender field and its comma: time of day
      and timecode, each ended by a comma, then the text field. */
  function ParseRowFields(sender: string, s: string): (r: Option<(TimecodeRecord, string)>)
    ensures r.Some? ==> |r.value.1| < |s|
  {
    match ReadUntil(s, ',')
    case None => None
    case Some(p2) =>
      match ReadUntil(p2.1, ',')
      case None => None
      case Some(p3) => ParseRowEnd(sender, p2.0, p3.0, p3.1)
  }

  /** The timecode's value and the quoted text field ended by a line
      break. */
  function ParseRowEnd(sender: string, localTime: string, tc: string, s: string): (r: Option<(TimecodeRecord, string)>)
    ensures r.Some? ==> |r.value.1| < |s|
  {
    match ParseTimecode(tc)
    case None => None
    case Some(secs) =>
      match ReadQuoted(s)
      case None => None
      case Some(p4) =>
        if p4.1 == [] || p4.1[0] != '\n' then None
        else Some((TimecodeRecord(sender, localTime, secs, p4.0), p4.1[1..]))
  }

  lemma RowEndRoundTrip(e: LogEntry, rest: string)
    requires e.sessionTime >= 0
    ensures ParseRowEnd(e.sender, e.localTime, Timecode(e.sessionTime), Quote(e.text) + ("\n" + rest))
            == Some((Record(e), rest))
  {
    TimecodeRoundTrip(e.sessionTime);
    var tail := "\n" + rest;
    QuoteRoundTrip(e.text, tail);
    assert tail[0] == '\n' && tail[1..] == rest;
  }

  lemma RowFieldsRoundTrip(e: LogEntry, rest: string)
    requires ',' !in e.localTime && e.sessionTime >= 0
    ensures ParseRowFields(e.sender, e.localTime + "," + Timecode(e.sessionTime) + "," + Quote(e.text) + "\n" + rest)
            == Some((Record(e), rest))
  {
    var tc := Timecode(e.sessionTime);
    TimecodeRoundTrip(e.sessionTime);
    var tail3 := Quote(e.text) + ("\n" + rest);
    var tail2 := tc + [','] + tail3;
    assert e.localTime + "," + tc + "," + Quote(e.text) + "\n" + rest == e.localTime + [','] + tail2;
    ReadUntilSplits(e.localTime, ',', tail2);
    ReadUntilSplits(tc, ',', tail3);
    RowEndRoundTrip(e, rest);
  }

  /** A row reads back as its entry, provided the time of day has no comma
      (the `ja-JP` format is `H:MM:SS`) and the elapsed time is not
      negative. */
  lemma TimecodeRowRoundTrip(e: LogEntry, rest: string)
    requires ',' !in e.localTime && e.sessionTime >= 0
    ensures ParseTimecodeRow(TimecodeRow(e) + rest) == Some((Record(e), rest))
  {
    var fields := e.localTime + "," + Timecode(e.sessionTime) + "," + Quote(e.text) + "\n" + rest;
    var tail1 := [','] + fields;
    assert TimecodeRow(e) + rest == Quote(e.sender) + tail1;
    QuoteRoundTrip(e.sender, tail1);
    assert tail1[1..] == fields;
    RowFieldsRoundTrip(e, rest);
  }

  function Records(log: seq<LogEntry>): seq<TimecodeRecord>
    requires forall i :: 0 <= i < |log| ==> log[i].sessionTime >= 0
  {
    if log == [] then [] else [Record(log[0])] + Records(log[1..])
  }

  function ParseTimecodeRows(s: string): Option<seq<TimecodeRecord>>
    decreases |s|
  {
    if s == [] then Some([])
    else
      match ParseTimecodeRow(s)
      case None => None
      case Some(p) =>
        match ParseTimecodeRows(p.1)
        case None => None
        case Some(more) => Some([p.0] + more)
  }

  /** Reference reader for a with-timecode export. */
  function ParseTimecodeCsv(s: string): Option<seq<TimecodeRecord>>
  {
    if s == NoData then Some([])
    else if |s| >= |TimecodeHeader| && s[..|TimecodeHeader|] == TimecodeHeader then
      ParseTimecodeRows(s[|TimecodeHeader|..])
    else None
  }

  /** Entries whose time of day has no comma and whose elapsed time is not
      negative: what the server produces while its clock runs forward. */
  predicate Exportable(log: seq<LogEntry>)
  {
    forall i :: 0 <= i < |log| ==> ',' !in log[i].localTime && log[i].sessionTime >= 0
  }

  lemma {:induction false} TimecodeRowsRoundTrip(log: seq<LogEntry>)
    requires Exportable(log)
    ensures ParseTimecodeRows(Rows(WithTimecode, log)) == Some(Records(log))
    decreases |log|
  {
    if log != [] {
      var rest := Rows(WithTimecode, log[1..]);
      TimecodeRowRoundTrip(log[0], rest);
      assert Exportable(log[1..]) by {
        forall i | 0 <= i < |log[1..]|
          ensures ',' !in log[1..][i].localTime && log[1..][i].sessionTime >= 0
        {
          assert log[1..][i] == log[i + 1];
        }
      }
      TimecodeRowsRoundTrip(log[1..]);
    }
  }

  /** Reading a with-timecode export gives back every entry's sender, time
      of day, whole elapsed seconds and text, in order. */
  lemma TimecodeCsvRoundTrip(log: seq<LogEntry>)
    requires Exportable(log)
    ensures ParseTimecodeCsv(CsvText(log, WithTimecode)) == Some(Records(log))
  {
    if log != [] {
      var s := CsvText(log, WithTimecode);
      assert s[..|TimecodeHeader|] == TimecodeHeader;
      assert s[|TimecodeHeader|..] == Rows(WithTimecode, log);
      TimecodeRowsRoundTrip(log);
    }
  }
}
