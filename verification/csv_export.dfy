/**
  The map's CSV export: a fixed seven-column header, one row per occurrence,
  every field wrapped in double quotes with inner quotes doubled, fields
  separated by commas and rows by newlines.

  Rendering a coordinate (`Number.prototype.toString`) and the calendar date
  of an event (`new Date(d).toISOString()`) are abstract functions.
  The parser here is the reading side the format is designed for; it is used
  to state that the export can be read back unchanged.
 */
module CsvExport {
  import opened Wrappers
  import opened Text
  import opened JsValues
  import opened SearchTypes

  /**
    `field.replace(/"/g, '""')`: every double quote doubled, every other
    character kept; a field without quotes is unchanged.
   */
  function Escape(field: string): (e: string)
    ensures '"' !in field ==> e == field
    ensures |e| >= |field|
    decreases |field|
  {
    if |field| == 0 then ""
    else if field[0] == '"' then "\"\"" + Escape(field[1..])
    else [field[0]] + Escape(field[1..])
  }

  /** Escaping writes each double quote twice and every other character once. */
  lemma {:induction false} EscapeCounts(field: string)
    ensures multiset(Escape(field))['"'] == 2 * multiset(field)['"']
    ensures forall c | c != '"' :: multiset(Escape(field))[c] == multiset(field)[c]
    decreases |field|
  {
    if |field| > 0 {
      EscapeCounts(field[1..]);
      EscapeHead(field);
    }
  }

  /** The first character's contribution to the escaped text, and to the field. */
  lemma EscapeHead(field: string)
    requires |field| > 0
    ensures multiset(field) == multiset([field[0]]) + multiset(field[1..])
    ensures multiset(Escape(field))
              == (if field[0] == '"' then multiset("\"\"") else multiset([field[0]])) + multiset(Escape(field[1..]))
  {
    assert field == [field[0]] + field[1..];
  }

  /** A field as written: quoted and escaped. */
  function Quote(field: string): (q: string)
    ensures |q| >= 2 && q[0] == '"' && q[|q| - 1] == '"'
  {
    "\"" + Escape(field) + "\""
  }

  function QuoteAll(fields: seq<string>): (qs: seq<string>)
    ensures |qs| == |fields|
    ensures forall k | 0 <= k < |fields| :: qs[k] == Quote(fields[k])
    decreases |fields|
  {
    if |fields| == 0 then [] else [Quote(fields[0])] + QuoteAll(fields[1..])
  }

  /** One CSV line: the quoted fields joined by commas. */
  function FormatRow(fields: seq<string>): string {
    Join(QuoteAll(fields), ',')
  }

  function FormatRows(rows: seq<seq<string>>): (lines: seq<string>)
    ensures |lines| == |rows|
    ensures forall k | 0 <= k < |rows| :: lines[k] == FormatRow(rows[k])
    decreases |rows|
  {
    if |rows| == 0 then [] else [FormatRow(rows[0])] + FormatRows(rows[1..])
  }

  /** The whole document: the lines joined by newlines. */
  function FormatCsv(rows: seq<seq<string>>): string {
    Join(FormatRows(rows), '\n')
  }

  /**
    Reads the inside of a quoted field, just after its opening quote: a doubled
    quote stands for one quote, a single quote closes the field. Yields the
    field and what follows the closing quote.
   */
  function ParseQuoted(s: string): (r: Option<(string, string)>)
    ensures r.Some? ==> |r.value.1| < |s|
    decreases |s|
  {
    if |s| == 0 then None
    else if s[0] == '"' then
      if |s| >= 2 && s[1] == '"' then
        match ParseQuoted(s[2..])
        case None => None
        case Some((f, rest)) => Some(("\"" + f, rest))
      else Some(("", s[1..]))
    else
      match ParseQuoted(s[1..])
      case None => None
      case Some((f, rest)) => Some(([s[0]] + f, rest))
  }

  /** Reads one quoted field. */
  function ParseField(s: string): (r: Option<(string, string)>)
    ensures r.Some? ==> |r.value.1| < |s|
  {
    if |s| > 0 && s[0] == '"' then ParseQuoted(s[1..]) else None
  }

  /** Reads the fields of one line: a field, then more while a comma follows. */
  function ParseFields(s: string): (r: Option<(seq<string>, string)>)
    ensures r.Some? ==> |r.value.1| < |s|
    decreases |s|
  {
    match ParseField(s)
    case None => None
    case Some((f, rest)) =>
      if |rest| > 0 && rest[0] == ',' then
        match ParseFields(rest[1..])
        case None => None
        case Some((fs, tail)) => Some(([f] + fs, tail))
      else Some(([f], rest))
  }

  /** Reads a whole document: lines separated by newlines, up to the end of the text. */
  function ParseCsv(s: string): Option<seq<seq<string>>>
    decreases |s|
  {
    match ParseFields(s)
    case None => None
    case Some((fields, rest)) =>
      if |rest| == 0 then Some([fields])
      else if rest[0] == '\n' then
        match ParseCsv(rest[1..])
        case None => None
        case Some(rows) => Some([fields] + rows)
      else None
  }

  /** The escaped text of a field followed by the closing quote reads back as the field. */
  lemma {:induction false} ParseQuotedEscape(field: string, rest: string)
    requires |rest| == 0 || rest[0] != '"'
    ensures ParseQuoted(Escape(field) + "\"" + rest) == Some((field, rest))
    decreases |field|
  {
    var s := Escape(field) + "\"" + rest;
    if |field| == 0 {
      assert s == "\"" + rest;
      assert s[1..] == rest;
    } else if field[0] == '"' {
      ParseQuotedEscape(field[1..], rest);
      assert s == "\"\"" + (Escape(field[1..]) + "\"" + rest);
      assert s[2..] == Escape(field[1..]) + "\"" + rest;
      assert "\"" + field[1..] == field;
    } else {
      ParseQuotedEscape(field[1..], rest);
      assert s == [field[0]] + (Escape(field[1..]) + "\"" + rest);
      assert s[1..] == Escape(field[1..]) + "\"" + rest;
      assert [field[0]] + field[1..] == field;
    }
  }

  /** A quoted field reads back as the field, whatever non-quote text follows it. */
  lemma ParseFieldQuote(field: string, rest: string)
    requires |rest| == 0 || rest[0] != '"'
    ensures ParseField(Quote(field) + rest) == Some((field, rest))
  {
    var s := Quote(field) + rest;
    assert s[1..] == Escape(field) + "\"" + rest;
    ParseQuotedEscape(field, rest);
  }

  /** A formatted line reads back as its fields, when it is followed by nothing or by a newline. */
  lemma {:induction false} ParseFieldsFormatRow(fields: seq<string>, rest: string)
    requires |fields| >= 1
    requires |rest| == 0 || rest[0] == '\n'
    ensures ParseFields(FormatRow(fields) + rest) == Some((fields, rest))
    decreases |fields|
  {
    var qs := QuoteAll(fields);
    if |fields| == 1 {
      assert FormatRow(fields) == Quote(fields[0]);
      ParseFieldQuote(fields[0], rest);
      assert [fields[0]] == fields;
    } else {
      var tail := FormatRow(fields[1..]) + rest;
      assert QuoteAll(fields)[1..] == QuoteAll(fields[1..]);
      assert FormatRow(fields) == Quote(fields[0]) + "," + FormatRow(fields[1..]);
      assert FormatRow(fields) + rest == Quote(fields[0]) + ("," + tail);
      ParseFieldQuote(fields[0], "," + tail);
      assert ("," + tail)[1..] == tail;
      ParseFieldsFormatRow(fields[1..], rest);
      assert [fields[0]] + fields[1..] == fields;
    }
  }

  /** Every line of the export has at least one field. */
  ghost predicate RowsNonEmpty(rows: seq<seq<string>>) {
    forall k | 0 <= k < |rows| :: |rows[k]| >= 1
  }

  /** A document of non-empty lines reads back as exactly those lines. */
  lemma {:induction false} CsvRoundTrip(rows: seq<seq<string>>)
    requires |rows| >= 1 && RowsNonEmpty(rows)
    ensures ParseCsv(FormatCsv(rows)) == Some(rows)
    decreases |rows|
  {
    if |rows| == 1 {
      CsvRoundTripOne(rows);
    } else {
      FormatCsvCons(rows);
      CsvRoundTrip(rows[1..]);
      ParseCsvLine(rows[0], FormatCsv(rows[1..]), rows[1..]);
      assert [rows[0]] + rows[1..] == rows;
    }
  }

  /** A one-line document reads back as that line. */
  lemma CsvRoundTripOne(rows: seq<seq<string>>)
    requires |rows| == 1 && |rows[0]| >= 1
    ensures ParseCsv(FormatCsv(rows)) == Some(rows)
  {
    assert FormatCsv(rows) == FormatRow(rows[0]) + "";
    ParseFieldsFormatRow(rows[0], "");
    assert [rows[0]] == rows;
  }

  /** A document of two or more lines is its first line, a newline, then the rest. */
  lemma FormatCsvCons(rows: seq<seq<string>>)
    requires |rows| >= 2
    ensures FormatCsv(rows) == FormatRow(rows[0]) + ("\n" + FormatCsv(rows[1..]))
  {
    assert FormatRows(rows)[1..] == FormatRows(rows[1..]);
  }

  /** A formatted line followed by a newline and a readable document reads as that line, then the document. */
  lemma ParseCsvLine(row: seq<string>, tail: string, more: seq<seq<string>>)
    requires |row| >= 1
    requires ParseCsv(tail) == Some(more)
    ensures ParseCsv(FormatRow(row) + ("\n" + tail)) == Some([row] + more)
  {
    ParseFieldsFormatRow(row, "\n" + tail);
    assert ("\n" + tail)[1..] == tail;
  }

  /** The header line. */
  function Header(): seq<string> {
    ["Species", "Scientific Name", "Latitude", "Longitude", "Date", "Country", "Recorded By"]
  }

  /** `s || ''` for an optional string. */
  function OrEmpty(s: Option<string>): (t: string)
    ensures Filled(s) ==> t == s.value
    ensures !Filled(s) ==> t == ""
  {
    if Filled(s) then s.value else ""
  }

  /** `occ.species || occ.scientificName || 'Unknown'`. */
  function SpeciesLabel(o: Occurrence): (name: string)
    ensures name != ""
    ensures Filled(o.species) ==> name == o.species.value
    ensures !Filled(o.species) && Filled(o.scientificName) ==> name == o.scientificName.value
    ensures !Filled(o.species) && !Filled(o.scientificName) ==> name == "Unknown"
  {
    if Filled(o.species) then o.species.value
    else if Filled(o.scientificName) then o.scientificName.value
    else "Unknown"
  }

  /**
    The text of an optional coordinate, `n?.toString() || ''`: the printed
    number, or `''` without one (a printed number is never empty).
   */
  function CoordinateText(n: Option<real>, numberText: real -> string): (t: string)
    ensures n.None? ==> t == ""
    ensures t != "" ==> n.Some? && t == numberText(n.value)
    ensures n.Some? && numberText(n.value) != "" ==> t == numberText(n.value)
  {
    if n.Some? && numberText(n.value) != "" then numberText(n.value) else ""
  }

  /**
    `new Date(d).toISOString()`: the ISO timestamp of a date, or `None` for an
    invalid date, on which the source throws a `RangeError`.
   */
  type IsoString = string -> Option<string>

  /** A record whose date column can be written: it has no date, or its date renders. */
  predicate DateRenders(o: Occurrence, isoString: IsoString) {
    !Filled(o.eventDate) || isoString(o.eventDate.value).Some?
  }

  /**
    The date column: the date part, before `T`, of the event's ISO timestamp,
    `''` without a date, and no text at all when the date does not render.
   */
  function DateText(eventDate: Option<string>, isoString: IsoString): (t: Option<string>)
    ensures t.None? <==> Filled(eventDate) && isoString(eventDate.value).None?
    ensures !Filled(eventDate) ==> t == Some("")
    ensures t.Some? ==> 'T' !in t.value
  {
    if !Filled(eventDate) then Some("")
    else match isoString(eventDate.value)
      case None => None
      case Some(iso) => Some(Split(iso, 'T')[0])
  }

  /** One occurrence as a line of seven fields, when its date renders. */
  function Row(o: Occurrence, numberText: real -> string, isoString: IsoString): (row: Option<seq<string>>)
    ensures row.Some? <==> DateRenders(o, isoString)
    ensures row.Some? ==> |row.value| == 7 && |Header()| == 7
    ensures row.Some? ==> row.value[0] == SpeciesLabel(o) && row.value[1] == OrEmpty(o.scientificName)
    ensures row.Some? ==> row.value[2] == CoordinateText(o.decimalLatitude, numberText)
    ensures row.Some? ==> row.value[3] == CoordinateText(o.decimalLongitude, numberText)
    ensures row.Some? ==> row.value[4] == DateText(o.eventDate, isoString).value
    ensures row.Some? ==> row.value[5] == OrEmpty(o.country) && row.value[6] == OrEmpty(o.recordedBy)
  {
    match DateText(o.eventDate, isoString)
    case None => None
    case Some(date) =>
      Some([SpeciesLabel(o), OrEmpty(o.scientificName),
            CoordinateText(o.decimalLatitude, numberText), CoordinateText(o.decimalLongitude, numberText),
            date, OrEmpty(o.country), OrEmpty(o.recordedBy)])
  }

  /** `occurrences.map(...)`: every line, or nothing once one date fails to render. */
  function Rows(os: seq<Occurrence>, numberText: real -> string, isoString: IsoString): (rows: Option<seq<seq<string>>>)
    ensures rows.Some? <==> forall k | 0 <= k < |os| :: DateRenders(os[k], isoString)
    ensures rows.Some? ==> |rows.value| == |os|
    ensures rows.Some? ==> forall k | 0 <= k < |os| :: Row(os[k], numberText, isoString) == Some(rows.value[k])
    decreases |os|
  {
    if |os| == 0 then Some([])
    else
      match Row(os[0], numberText, isoString)
      case None => None
      case Some(row) =>
        match Rows(os[1..], numberText, isoString)
        case None => None
        case Some(rest) => Some([row] + rest)
  }

  /** `exportToCSV`'s document: the header line, then one line per occurrence; no document when a date does not render. */
  function ExportCsv(os: seq<Occurrence>, numberText: real -> string, isoString: IsoString): (doc: Option<string>)
    ensures doc.Some? <==> forall k | 0 <= k < |os| :: DateRenders(os[k], isoString)
    ensures doc.Some? ==> doc.value == FormatCsv([Header()] + Rows(os, numberText, isoString).value)
  {
    match Rows(os, numberText, isoString)
    case None => None
    case Some(rows) => Some(FormatCsv([Header()] + rows))
  }

  /**
    The export reads back as the header followed by one seven-field line per
    occurrence, in order, whatever commas, quotes or newlines the fields hold.
   */
  lemma ExportReadsBack(os: seq<Occurrence>, numberText: real -> string, isoString: IsoString)
    requires ExportCsv(os, numberText, isoString).Some?
    ensures ParseCsv(ExportCsv(os, numberText, isoString).value)
              == Some([Header()] + Rows(os, numberText, isoString).value)
    ensures |[Header()] + Rows(os, numberText, isoString).value| == |os| + 1
  {
    var body := Rows(os, numberText, isoString).value;
    var rows := [Header()] + body;
    assert RowsNonEmpty(rows) by {
      forall k | 0 <= k < |rows|
        ensures |rows[k]| >= 1
      {
        if k > 0 {
          assert rows[k] == body[k - 1];
          assert Row(os[k - 1], numberText, isoString) == Some(body[k - 1]);
        }
      }
    }
    CsvRoundTrip(rows);
  }
}
