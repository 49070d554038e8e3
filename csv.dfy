/**
 * The CSV export of backend/server.py: the quote escaping of the notes, one
 * rendered line per entry, the whole document, and the export file name.
 * A reader for the quoting convention the export uses (a field in double
 * quotes, a doubled quote inside such a field standing for one quote) is
 * what the rendering is proved against: reading an export back gives its
 * rows.
 */
module Csv {
  import opened Wrappers
  import opened Entries
  import Decimal

  const Header: string := "Date,Mood,Emoji,Notes,Timestamp\n"

  /** The header line read as a record. */
  const HeaderRow: seq<string> := ["Date", "Mood", "Emoji", "Notes", "Timestamp"]

  // ---------------------------------------------------------------------------
  // Escaping the notes

  /** notes.replace('"', '""'). */
  function Escape(s: string): string
  {
    if s == [] then [] else (if s[0] == '"' then "\"\"" else [s[0]]) + Escape(s[1..])
  }

  /** t.replace('""', '"'): collapses each doubled quote, scanning left to right. */
  function Unescape(t: string): string
  {
    if |t| >= 2 && t[0] == '"' && t[1] == '"' then "\"" + Unescape(t[2..])
    else if t == [] then []
    else [t[0]] + Unescape(t[1..])
  }

  /** Every quote in t is one of a doubled pair, pairs read from the left. */
  predicate QuotesPaired(t: string)
  {
    if t == [] then true
    else if t[0] != '"' then QuotesPaired(t[1..])
    else |t| >= 2 && t[1] == '"' && QuotesPaired(t[2..])
  }

  lemma {:induction false} EscapePairsQuotes(s: string)
    ensures QuotesPaired(Escape(s))
  {
    if s != [] {
      EscapePairsQuotes(s[1..]);
      var t := Escape(s);
      if s[0] == '"' {
        assert t[2..] == Escape(s[1..]);
      } else {
        assert t[1..] == Escape(s[1..]);
      }
    }
  }

  lemma {:induction false} UnescapeEscape(s: string)
    ensures Unescape(Escape(s)) == s
  {
    if s != [] {
      UnescapeEscape(s[1..]);
      var t := Escape(s);
      if s[0] == '"' {
        assert t[2..] == Escape(s[1..]);
      } else {
        assert t[1..] == Escape(s[1..]);
      }
      assert s == [s[0]] + s[1..];
    }
  }

  lemma {:induction false} EscapeUnescape(t: string)
    requires QuotesPaired(t)
    ensures Escape(Unescape(t)) == t
  {
    if t != [] {
      if t[0] == '"' {
        EscapeUnescape(t[2..]);
        assert t == "\"\"" + t[2..];
      } else {
        EscapeUnescape(t[1..]);
        assert t == [t[0]] + t[1..];
      }
    }
  }

  /** Escaping leaves a string alone exactly when it holds no quote. */
  lemma {:induction false} EscapeFixesQuoteFree(s: string)
    ensures Escape(s) == s <==> '"' !in s
  {
    if s != [] {
      EscapeFixesQuoteFree(s[1..]);
      assert s == [s[0]] + s[1..];
      if s[0] == '"' {
        assert |Escape(s)| > |s| by { EscapeLength(s[1..]); }
      }
    }
  }

  lemma {:induction false} EscapeLength(s: string)
    ensures |Escape(s)| >= |s|
  {
    if s != [] {
      EscapeLength(s[1..]);
    }
  }

  // ---------------------------------------------------------------------------
  // Rendering

  function Quoted(x: string): string
  {
    "\"" + x + "\""
  }

  /** The line of one entry: date, emoji and timestamp quoted as they are, mood bare, notes escaped and quoted. */
  function RenderLine(e: MoodEntry): string
  {
    Quoted(e.date) + "," + Decimal.IntToDecimal(e.mood) + "," + Quoted(e.moodEmoji) + ","
      + Quoted(Escape(e.notes)) + "," + Quoted(e.timestamp) + "\n"
  }

  function RenderLines(s: seq<MoodEntry>): string
  {
    if s == [] then "" else RenderLine(s[0]) + RenderLines(s[1..])
  }

  /** The exported document for entries already in export order. */
  function RenderCsv(s: seq<MoodEntry>): string
  {
    Header + RenderLines(s)
  }

  lemma {:induction false} RenderLinesAppend(s: seq<MoodEntry>, e: MoodEntry)
    ensures RenderLines(s + [e]) == RenderLines(s) + RenderLine(e)
  {
    if s != [] {
      assert (s + [e])[1..] == s[1..] + [e];
      RenderLinesAppend(s[1..], e);
    }
  }

  /** Rendering one more entry appends its line to the document. */
  lemma RenderCsvAppend(s: seq<MoodEntry>, e: MoodEntry)
    ensures RenderCsv(s + [e]) == RenderCsv(s) + RenderLine(e)
  {
    RenderLinesAppend(s, e);
  }

  /**
   * The document of the first i entries: the header for none, and one more
   * line for each further entry.
   */
  lemma RenderCsvStep(s: seq<MoodEntry>, i: nat, content: string)
    requires i <= |s|
    requires i == 0 ==> content == Header
    requires i > 0 ==> content == RenderCsv(s[..i - 1]) + RenderLine(s[i - 1])
    ensures content == RenderCsv(s[..i])
  {
    if i > 0 {
      assert s[..i] == s[..i - 1] + [s[i - 1]];
      RenderCsvAppend(s[..i - 1], s[i - 1]);
    }
  }

  lemma RenderCsvEmpty()
    ensures RenderCsv([]) == Header
  {
  }

  // ---------------------------------------------------------------------------
  // Reading back

  /**
   * The rest of a quoted field after its opening quote: its text, with each
   * doubled quote read as one, and what follows the closing quote.
   */
  function ParseQuotedTail(s: string): (r: Option<(string, string)>)
    ensures r.Some? ==> |r.value.1| < |s|
    decreases |s|
  {
    if s == [] then None
    else if s[0] == '"' then
      if |s| >= 2 && s[1] == '"' then
        var t := ParseQuotedTail(s[2..]);
        if t.None? then None else Some(("\"" + t.value.0, t.value.1))
      else Some(("", s[1..]))
    else
      var t := ParseQuotedTail(s[1..]);
      if t.None? then None else Some(([s[0]] + t.value.0, t.value.1))
  }

  /** An unquoted field: everything up to the next comma or line end. */
  function ParseBare(s: string): (r: (string, string))
    ensures |r.1| <= |s|
  {
    if s == [] || s[0] == ',' || s[0] == '\n' then ("", s)
    else
      var t := ParseBare(s[1..]);
      ([s[0]] + t.0, t.1)
  }

  function ParseField(s: string): (r: Option<(string, string)>)
    ensures r.Some? ==> |r.value.1| <= |s|
  {
    if s != [] && s[0] == '"' then ParseQuotedTail(s[1..]) else Some(ParseBare(s))
  }

  /** One record: fields separated by commas and ended by a newline. */
  function ParseRecord(s: string): (r: Option<(seq<string>, string)>)
    ensures r.Some? ==> |r.value.1| < |s|
    decreases |s|
  {
    var f := ParseField(s);
    if f.None? then None
    else
      var rest := f.value.1;
      if rest != [] && rest[0] == ',' then
        var more := ParseRecord(rest[1..]);
        if more.None? then None else Some(([f.value.0] + more.value.0, more.value.1))
      else if rest != [] && rest[0] == '\n' then Some(([f.value.0], rest[1..]))
      else None
  }

  /** A whole document: records until the text is used up. */
  function ParseCsv(s: string): Option<seq<seq<string>>>
    decreases |s|
  {
    if s == [] then Some([])
    else
      var rec := ParseRecord(s);
      if rec.None? then None
      else
        var more := ParseCsv(rec.value.1);
        if more.None? then None else Some([rec.value.0] + more.value)
  }

  // ---------------------------------------------------------------------------
  // Round trip

  /** The fields of an entry as the export shows them. */
  function Row(e: MoodEntry): seq<string>
  {
    [e.date, Decimal.IntToDecimal(e.mood), e.moodEmoji, e.notes, e.timestamp]
  }

  function Rows(s: seq<MoodEntry>): seq<seq<string>>
  {
    if s == [] then [] else [Row(s[0])] + Rows(s[1..])
  }

  /** The fields the export quotes without escaping hold no quote. */
  predicate Exportable(e: MoodEntry)
  {
    '"' !in e.date && '"' !in e.moodEmoji && '"' !in e.timestamp
  }

  lemma {:induction false} QuotedTailRoundTrip(x: string, rest: string)
    requires rest == [] || rest[0] != '"'
    ensures ParseQuotedTail(Escape(x) + "\"" + rest) == Some((x, rest))
  {
    var s := Escape(x) + "\"" + rest;
    if x == [] {
      assert s == "\"" + rest;
    } else {
      QuotedTailRoundTrip(x[1..], rest);
      if x[0] == '"' {
        assert s == "\"\"" + (Escape(x[1..]) + "\"" + rest);
        assert s[2..] == Escape(x[1..]) + "\"" + rest;
        assert x == "\"" + x[1..];
      } else {
        assert s == [x[0]] + (Escape(x[1..]) + "\"" + rest);
        assert s[1..] == Escape(x[1..]) + "\"" + rest;
        assert x == [x[0]] + x[1..];
      }
    }
  }

  /** A quoted field followed by a separator reads back as its text. */
  lemma QuotedFieldRoundTrip(x: string, sep: char, tail: string)
    requires sep != '"'
    ensures ParseField(Quoted(Escape(x)) + [sep] + tail) == Some((x, [sep] + tail))
  {
    var s := Quoted(Escape(x)) + [sep] + tail;
    assert s == "\"" + (Escape(x) + "\"" + ([sep] + tail));
    assert s[1..] == Escape(x) + "\"" + ([sep] + tail);
    QuotedTailRoundTrip(x, [sep] + tail);
  }

  lemma {:induction false} BareRoundTrip(x: string, rest: string)
    requires ',' !in x && '\n' !in x
    requires rest == [] || rest[0] == ',' || rest[0] == '\n'
    ensures ParseBare(x + rest) == (x, rest)
  {
    if x == [] {
      assert x + rest == rest;
    } else {
      assert (x + rest)[1..] == x[1..] + rest;
      BareRoundTrip(x[1..], rest);
      assert x == [x[0]] + x[1..];
    }
  }

  /** A bare field followed by a separator reads back as its text. */
  lemma BareFieldRoundTrip(x: string, sep: char, tail: string)
    requires ',' !in x && '\n' !in x && (x == [] || x[0] != '"')
    requires sep == ',' || sep == '\n'
    ensures ParseField(x + [sep] + tail) == Some((x, [sep] + tail))
  {
    assert x + [sep] + tail == x + ([sep] + tail);
    BareRoundTrip(x, [sep] + tail);
  }

  /** A field, a comma and more fields: the record is the field then the rest's fields. */
  lemma RecordStep(field: string, tail: string, s: string, fields: seq<string>, rest: string)
    requires ParseField(s) == Some((field, "," + tail))
    requires ParseRecord(tail) == Some((fields, rest))
    ensures ParseRecord(s) == Some(([field] + fields, rest))
  {
    assert ("," + tail)[1..] == tail;
  }

  lemma RecordLast(field: string, tail: string, s: string)
    requires ParseField(s) == Some((field, "\n" + tail))
    ensures ParseRecord(s) == Some(([field], tail))
  {
    assert ("\n" + tail)[1..] == tail;
  }

  /** A quoted field and a comma in front of a record add the field in front of its fields. */
  lemma QuotedThen(x: string, tail: string, fields: seq<string>, rest: string)
    requires ParseRecord(tail) == Some((fields, rest))
    ensures ParseRecord(Quoted(Escape(x)) + "," + tail) == Some(([x] + fields, rest))
  {
    QuotedFieldRoundTrip(x, ',', tail);
    RecordStep(x, tail, Quoted(Escape(x)) + "," + tail, fields, rest);
  }

  /** A bare field and a comma in front of a record add the field in front of its fields. */
  lemma BareThen(x: string, tail: string, fields: seq<string>, rest: string)
    requires ',' !in x && '\n' !in x && (x == [] || x[0] != '"')
    requires ParseRecord(tail) == Some((fields, rest))
    ensures ParseRecord(x + "," + tail) == Some(([x] + fields, rest))
  {
    BareFieldRoundTrip(x, ',', tail);
    RecordStep(x, tail, x + "," + tail, fields, rest);
  }

  lemma LineShape(e: MoodEntry, rest: string)
    ensures RenderLine(e) + rest ==
      Quoted(e.date) + "," + (Decimal.IntToDecimal(e.mood) + "," + (Quoted(e.moodEmoji) + ","
        + (Quoted(Escape(e.notes)) + "," + (Quoted(e.timestamp) + "\n" + rest))))
  {
  }

  /** The decimal text of a mood can stand as a bare field. */
  lemma DecimalIsBare(m: int)
    ensures var dec := Decimal.IntToDecimal(m); ',' !in dec && '\n' !in dec && dec[0] != '"'
  {
    var dec := Decimal.IntToDecimal(m);
    assert forall i :: 1 <= i < |dec| ==> dec[i] == dec[1..][i - 1];
  }

  /** The notes and timestamp fields that end a line read back as the two fields. */
  lemma LastFieldsRoundTrip(notes: string, ts: string, rest: string)
    ensures ParseRecord(Quoted(Escape(notes)) + "," + (Quoted(Escape(ts)) + "\n" + rest))
      == Some(([notes, ts], rest))
  {
    var s4 := Quoted(Escape(ts)) + "\n" + rest;
    QuotedFieldRoundTrip(ts, '\n', rest);
    RecordLast(ts, rest, s4);
    QuotedThen(notes, s4, [ts], rest);
    assert [notes] + [ts] == [notes, ts];
  }

  /** The emoji, notes and timestamp fields that end a line read back as the three fields. */
  lemma QuotedFieldsRoundTrip(emoji: string, notes: string, ts: string, rest: string)
    ensures ParseRecord(Quoted(Escape(emoji)) + "," + (Quoted(Escape(notes)) + "," + (Quoted(Escape(ts)) + "\n" + rest)))
      == Some(([emoji, notes, ts], rest))
  {
    var s3 := Quoted(Escape(notes)) + "," + (Quoted(Escape(ts)) + "\n" + rest);
    LastFieldsRoundTrip(notes, ts, rest);
    QuotedThen(emoji, s3, [notes, ts], rest);
    assert [emoji] + [notes, ts] == [emoji, notes, ts];
  }

  /** The five fields of a line, in the layout of RenderLine, read back as the fields. */
  lemma FieldsRoundTrip(date: string, dec: string, emoji: string, notes: string, ts: string, rest: string)
    requires ',' !in dec && '\n' !in dec && (dec == [] || dec[0] != '"')
    ensures ParseRecord(Quoted(Escape(date)) + "," + (dec + "," + (Quoted(Escape(emoji)) + ","
        + (Quoted(Escape(notes)) + "," + (Quoted(Escape(ts)) + "\n" + rest)))))
      == Some(([date, dec, emoji, notes, ts], rest))
  {
    var s2 := Quoted(Escape(emoji)) + "," + (Quoted(Escape(notes)) + "," + (Quoted(Escape(ts)) + "\n" + rest));
    var s1 := dec + "," + s2;
    QuotedFieldsRoundTrip(emoji, notes, ts, rest);
    BareThen(dec, s2, [emoji, notes, ts], rest);
    QuotedThen(date, s1, [dec] + [emoji, notes, ts], rest);
    assert [date] + ([dec] + [emoji, notes, ts]) == [date, dec, emoji, notes, ts];
  }

  /** A rendered line reads back as the entry's row, leaving what follows it. */
  lemma LineRoundTrip(e: MoodEntry, rest: string)
    requires Exportable(e)
    ensures ParseRecord(RenderLine(e) + rest) == Some((Row(e), rest))
  {
    EscapeFixesQuoteFree(e.date);
    EscapeFixesQuoteFree(e.moodEmoji);
    EscapeFixesQuoteFree(e.timestamp);
    LineShape(e, rest);
    DecimalIsBare(e.mood);
    FieldsRoundTrip(e.date, Decimal.IntToDecimal(e.mood), e.moodEmoji, e.notes, e.timestamp, rest);
  }

  lemma HeaderShape(rest: string)
    ensures Header + rest == "Date" + "," + ("Mood" + "," + ("Emoji" + "," + ("Notes" + "," + ("Timestamp" + "\n" + rest))))
  {
  }

  /** The header reads back as the five column names, leaving what follows it. */
  lemma HeaderRoundTrip(rest: string)
    ensures ParseRecord(Header + rest) == Some((HeaderRow, rest))
  {
    var s4 := "Timestamp" + "\n" + rest;
    var s3 := "Notes" + "," + s4;
    var s2 := "Emoji" + "," + s3;
    var s1 := "Mood" + "," + s2;
    HeaderShape(rest);
    BareFieldRoundTrip("Timestamp", '\n', rest);
    RecordLast("Timestamp", rest, s4);
    BareThen("Notes", s4, ["Timestamp"], rest);
    BareThen("Emoji", s3, ["Notes"] + ["Timestamp"], rest);
    BareThen("Mood", s2, ["Emoji"] + (["Notes"] + ["Timestamp"]), rest);
    BareThen("Date", s1, ["Mood"] + (["Emoji"] + (["Notes"] + ["Timestamp"])), rest);
    assert ["Date"] + (["Mood"] + (["Emoji"] + (["Notes"] + ["Timestamp"]))) == HeaderRow;
  }

  /** A record followed by a readable document reads as that record first. */
  lemma ParseCsvCons(s: string, rec: seq<string>, rest: string, more: seq<seq<string>>)
    requires ParseRecord(s) == Some((rec, rest))
    requires ParseCsv(rest) == Some(more)
    ensures ParseCsv(s) == Some([rec] + more)
  {
  }

  lemma {:induction false} LinesRoundTrip(s: seq<MoodEntry>)
    requires forall i :: 0 <= i < |s| ==> Exportable(s[i])
    ensures ParseCsv(RenderLines(s)) == Some(Rows(s))
  {
    if s != [] {
      LinesRoundTrip(s[1..]);
      LineRoundTrip(s[0], RenderLines(s[1..]));
      ParseCsvCons(RenderLines(s), Row(s[0]), RenderLines(s[1..]), Rows(s[1..]));
    }
  }

  /**
   * The export reads back as the header row followed by one row per entry, in
   * the same order, each notes field as it was before escaping.
   */
  lemma CsvRoundTrip(s: seq<MoodEntry>)
    requires forall i :: 0 <= i < |s| ==> Exportable(s[i])
    ensures ParseCsv(RenderCsv(s)) == Some([HeaderRow] + Rows(s))
  {
    LinesRoundTrip(s);
    HeaderRoundTrip(RenderLines(s));
    ParseCsvCons(RenderCsv(s), HeaderRow, RenderLines(s), Rows(s));
  }

  /**
   * Without that condition two different entries can render the same line: a
   * quote in the unescaped date moves the column boundaries.
   */
  lemma UnescapedFieldsAmbiguous()
    ensures RenderLine(MoodEntry("x", 2, "E", "N", "a\",1,\"b", "T"))
         == RenderLine(MoodEntry("x", 1, "b\",2,\"E", "N", "a", "T"))
  {
    assert Decimal.IntToDecimal(1) == "1" && Decimal.IntToDecimal(2) == "2";
    assert Escape("N") == "N";
  }

  // ---------------------------------------------------------------------------
  // File name

  /** A calendar date as the clock reports it. */
  datatype CalendarDate = CalendarDate(year: nat, month: nat, day: nat)

  predicate ValidCalendarDate(t: CalendarDate)
  {
    1 <= t.year <= 9999 && 1 <= t.month <= 12 && 1 <= t.day <= 31
  }

  /** mood_data_YYYYMMDD.csv for the given date. */
  function ExportFilename(t: CalendarDate): string
    requires ValidCalendarDate(t)
  {
    "mood_data_" + Decimal.PadDigits(t.year, 4) + Decimal.PadDigits(t.month, 2) + Decimal.PadDigits(t.day, 2) + ".csv"
  }

  /** The file name is the prefix, eight digits that read back as the date, and the extension. */
  lemma ExportFilenameReadsBack(t: CalendarDate)
    requires ValidCalendarDate(t)
    ensures var r := ExportFilename(t);
      && |r| == 22 && r[..10] == "mood_data_" && r[18..] == ".csv"
      && Decimal.AllDigits(r[10..14]) && Decimal.AllDigits(r[14..16]) && Decimal.AllDigits(r[16..18])
      && Decimal.DigitsToNat(r[10..14]) == t.year
      && Decimal.DigitsToNat(r[14..16]) == t.month
      && Decimal.DigitsToNat(r[16..18]) == t.day
  {
    var r := ExportFilename(t);
    var y := Decimal.PadDigits(t.year, 4);
    var m := Decimal.PadDigits(t.month, 2);
    var d := Decimal.PadDigits(t.day, 2);
    Decimal.PadDigitsRoundTrip(t.year, 4);
    Decimal.PadDigitsRoundTrip(t.month, 2);
    Decimal.PadDigitsRoundTrip(t.day, 2);
    assert r[10..14] == y && r[14..16] == m && r[16..18] == d;
  }
}
