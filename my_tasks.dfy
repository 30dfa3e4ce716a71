/** The pure helpers of the My Tasks page: the CSV export serialiser, the status badge class and the
    simple date format. Rows are JavaScript objects, kept as their (key, value) pairs in key order. */
module MyTasks {
  import opened Wrappers
  import opened Text

  /** The JSON values a task row holds (numbers are integers here). */
  datatype JsValue = Null | Bool(b: bool) | Num(n: int) | Str(s: string)

  type Row = seq<(string, JsValue)>

  /** `Object.keys(row)` */
  function Keys(row: Row): (keys: seq<string>)
    ensures |keys| == |row|
    ensures forall i :: 0 <= i < |row| ==> keys[i] == row[i].0
  {
    if row == [] then [] else [row[0].0] + Keys(row[1..])
  }

  /** `row[key]`: the first pair with that key; None is `undefined`. */
  function Lookup(row: Row, key: string): (v: Option<JsValue>)
    ensures v.Some? <==> key in Keys(row)
  {
    if row == [] then None
    else if row[0].0 == key then Some(row[0].1)
    else Lookup(row[1..], key)
  }

  /** JavaScript falsiness, for the values a row holds. */
  predicate Falsy(v: Option<JsValue>)
  {
    match v
    case None => true
    case Some(Null) => true
    case Some(Bool(b)) => !b
    case Some(Num(n)) => n == 0
    case Some(Str(s)) => s == ""
  }

  /** `value.toString()` */
  function ToText(v: JsValue): string
  {
    match v
    case Null => "null"
    case Bool(b) => if b then "true" else "false"
    case Num(n) => IntToString(n)
    case Str(s) => s
  }

  /** `(row[header] || '').toString()`: the text of a cell before quoting. */
  function CellText(row: Row, header: string): (t: string)
    ensures Falsy(Lookup(row, header)) ==> t == ""
    ensures !Falsy(Lookup(row, header)) ==> t == ToText(Lookup(row, header).value)
  {
    var v := Lookup(row, header);
    if Falsy(v) then "" else ToText(v.value)
  }

  /** The cell texts of a row, one per header. */
  function CellTexts(headers: seq<string>, row: Row): (cells: seq<string>)
    ensures |cells| == |headers|
    ensures forall j :: 0 <= j < |headers| ==> cells[j] == CellText(row, headers[j])
  {
    if headers == [] then [] else [CellText(row, headers[0])] + CellTexts(headers[1..], row)
  }

  /** A field escaped as section 2 rule 7 of RFC 4180 asks: wrapped in double quotes, with each
      embedded double quote doubled. */
  function Quote(s: string): string
  {
    "\"" + ReplaceAll(s, "\"", "\"\"") + "\""
  }

  function QuoteAll(cells: seq<string>): (quoted: seq<string>)
    ensures |quoted| == |cells|
    ensures forall j :: 0 <= j < |cells| ==> quoted[j] == Quote(cells[j])
  {
    if cells == [] then [] else [Quote(cells[0])] + QuoteAll(cells[1..])
  }

  /** One data line of the export. */
  function CsvLine(headers: seq<string>, row: Row): string
  {
    Join(QuoteAll(CellTexts(headers, row)), ",")
  }

  function CsvLines(headers: seq<string>, rows: seq<Row>): (lines: seq<string>)
    ensures |lines| == |rows|
    ensures forall i :: 0 <= i < |rows| ==> lines[i] == CsvLine(headers, rows[i])
  {
    if rows == [] then [] else [CsvLine(headers, rows[0])] + CsvLines(headers, rows[1..])
  }

  /** convertToCSV: no data gives the empty text; otherwise the first row's keys, joined by commas,
      then one line per row, lines separated by a line feed and no final line feed. Columns come from
      the first row only. */
  function ConvertToCsv(data: Option<seq<Row>>): (csv: string)
    ensures (data == None || data == Some([])) <==> csv == ""
  {
    if data == None || data.value == [] then ""
    else
      var headers := Keys(data.value[0]);
      Join(headers, ",") + "\n" + Join(CsvLines(headers, data.value), "\n")
  }

  /** The export starts with the header line. */
  lemma CsvStartsWithHeader(rows: seq<Row>)
    requires rows != []
    ensures StartsWith(ConvertToCsv(Some(rows)), Join(Keys(rows[0]), ",") + "\n")
  {
  }

  /** The export is the header line and one line per row, in row order. */
  lemma CsvLinesInOrder(rows: seq<Row>)
    requires rows != []
    ensures var headers := Keys(rows[0]);
      ConvertToCsv(Some(rows)) == Join([Join(headers, ",")] + CsvLines(headers, rows), "\n")
  {
    var headers := Keys(rows[0]);
    var lines := CsvLines(headers, rows);
    assert ([Join(headers, ",")] + lines)[1..] == lines;
  }

  // ---------------------------------------------------------------------------------------------
  // Reading an escaped field back, as a reader following RFC 4180 does

  /** Reads the rest of a quoted field after its opening quote: a doubled quote stands for one quote,
      a single quote closes the field. Gives the field's value and what follows the closing quote. */
  function ReadQuoted(t: string): (r: Option<(string, string)>)
    ensures r.Some? ==> |r.value.1| < |t|
    decreases |t|
  {
    if t == [] then None
    else if t[0] == '"' then
      if |t| >= 2 && t[1] == '"' then
        match ReadQuoted(t[2..])
        case None => None
        case Some(p) => Some(("\"" + p.0, p.1))
      else Some(("", t[1..]))
    else
      match ReadQuoted(t[1..])
      case None => None
      case Some(p) => Some(([t[0]] + p.0, p.1))
  }

  /** Reads a line of quoted fields separated by commas. */
  function ReadLine(t: string): Option<seq<string>>
    decreases |t|
  {
    if t == [] || t[0] != '"' then None
    else
      match ReadQuoted(t[1..])
      case None => None
      case Some(p) =>
        if p.1 == [] then Some([p.0])
        else if p.1[0] != ',' then None
        else
          match ReadLine(p.1[1..])
          case None => None
          case Some(more) => Some([p.0] + more)
  }

  /** Escaping works character by character from the front. */
  lemma EscapeHead(s: string)
    requires s != []
    ensures ReplaceAll(s, "\"", "\"\"") == (if s[0] == '"' then "\"\"" else [s[0]]) + ReplaceAll(s[1..], "\"", "\"\"")
  {
    assert s[..1] == [s[0]];
  }

  /** Whatever the field holds, the escaped form reads back to it, provided what follows does not
      start with a quote (it is a comma, a line feed or the end). */
  lemma {:induction false} QuotedBodyRoundTrip(s: string, rest: string)
    requires rest == [] || rest[0] != '"'
    ensures ReadQuoted(ReplaceAll(s, "\"", "\"\"") + "\"" + rest) == Some((s, rest))
    decreases |s|
  {
    var t := ReplaceAll(s, "\"", "\"\"") + "\"" + rest;
    if s == [] {
      assert t == "\"" + rest;
      assert t[1..] == rest;
    } else {
      var t' := ReplaceAll(s[1..], "\"", "\"\"") + "\"" + rest;
      EscapedFieldHead(s, rest);
      QuotedBodyRoundTrip(s[1..], rest);
      ReadQuotedPrepend(s[0], t', s[1..], rest);
      assert [s[0]] + s[1..] == s;
    }
  }

  /** The escaped field followed by its closing quote, split after its first character. */
  lemma EscapedFieldHead(s: string, rest: string)
    requires s != []
    ensures ReplaceAll(s, "\"", "\"\"") + "\"" + rest
      == (if s[0] == '"' then "\"\"" else [s[0]]) + (ReplaceAll(s[1..], "\"", "\"\"") + "\"" + rest)
  {
    EscapeHead(s);
  }

  /** One more escaped character in front of a field reads as that character. */
  lemma ReadQuotedPrepend(c: char, t: string, v: string, rest: string)
    requires ReadQuoted(t) == Some((v, rest))
    ensures ReadQuoted((if c == '"' then "\"\"" else [c]) + t) == Some(([c] + v, rest))
  {
    var u := (if c == '"' then "\"\"" else [c]) + t;
    if c == '"' {
      assert u[2..] == t;
    } else {
      assert u[1..] == t;
    }
  }

  /** An escaped field read back gives the field. */
  lemma QuoteRoundTrip(s: string, rest: string)
    requires rest == [] || rest[0] != '"'
    ensures var t := Quote(s) + rest; |t| > 0 && t[0] == '"' && ReadQuoted(t[1..]) == Some((s, rest))
  {
    var t := Quote(s) + rest;
    assert t[1..] == ReplaceAll(s, "\"", "\"\"") + "\"" + rest;
    QuotedBodyRoundTrip(s, rest);
  }

  /** A line of escaped fields reads back to its fields: no value, whatever quotes, commas or line
      feeds it holds, can shift a column. */
  lemma {:induction false} LineRoundTrip(cells: seq<string>)
    requires cells != []
    ensures ReadLine(Join(QuoteAll(cells), ",")) == Some(cells)
    decreases |cells|
  {
    var quoted := QuoteAll(cells);
    if |cells| == 1 {
      QuoteRoundTrip(cells[0], "");
      assert Quote(cells[0]) + "" == Quote(cells[0]);
      assert Join(quoted, ",") == Quote(cells[0]);
      assert cells == [cells[0]];
    } else {
      var tail := Join(QuoteAll(cells[1..]), ",");
      assert quoted[1..] == QuoteAll(cells[1..]);
      assert Join(quoted, ",") == Quote(cells[0]) + ("," + tail);
      QuoteRoundTrip(cells[0], "," + tail);
      LineRoundTrip(cells[1..]);
      assert ("," + tail)[1..] == tail;
      assert [cells[0]] + cells[1..] == cells;
    }
  }

  /** Every data line of a non-empty export reads back to the row's cell texts, one per column of
      the first row. */
  lemma CsvRowsReadBack(rows: seq<Row>, i: nat)
    requires i < |rows| && |rows[0]| > 0
    ensures var headers := Keys(rows[0]);
      ReadLine(CsvLines(headers, rows)[i]) == Some(CellTexts(headers, rows[i]))
  {
    LineRoundTrip(CellTexts(Keys(rows[0]), rows[i]));
  }

  // ---------------------------------------------------------------------------------------------
  // Status badge and date display

  /** getStatusClass: the badge class of a status. */
  function StatusClass(status: string): string
  {
    if status == "Pending" then "warning"
    else if status == "In Progress" then "info"
    else if status == "Completed" then "success"
    else if status == "Open" then "primary"
    else "secondary"
  }

  const KNOWN_STATUSES := ["Pending", "In Progress", "Completed", "Open"]

  /** The four known statuses get four different badges, and any other status the neutral one. */
  lemma StatusClassDistinguishesKnown(s: string, t: string)
    ensures StatusClass(s) == "secondary" <==> s !in KNOWN_STATUSES
    ensures s in KNOWN_STATUSES && t in KNOWN_STATUSES ==> (StatusClass(s) == StatusClass(t) <==> s == t)
  {
  }

  /** The local calendar fields JavaScript's Date gives. */
  datatype Moment = Moment(year: nat, month: nat, day: nat, hours: nat, minutes: nat)

  predicate ValidMoment(m: Moment)
  {
    1 <= m.month <= 12 && 1 <= m.day <= 31 && m.hours < 24 && m.minutes < 60
  }

  /** formatDateSimple: "—" for a missing or unparsable date, otherwise `dd/mm/yyyy hh:mm`.
      `parse` stands for `new Date(dateStr)` read in the browser's time zone. */
  function FormatDateSimple(dateStr: Option<string>, parse: string -> Option<Moment>): (r: string)
    ensures (dateStr == None || dateStr == Some("") || parse(dateStr.value).None?) ==> r == "—"
  {
    if dateStr == None || dateStr.value == "" then "—"
    else
      match parse(dateStr.value)
      case None => "—"
      case Some(m) =>
        Pad2(m.day) + "/" + Pad2(m.month) + "/" + NatToString(m.year) + " " + Pad2(m.hours) + ":" + Pad2(m.minutes)
  }

  /** Where the fields of `dd/mm/yyyy hh:mm` sit, whatever the year's width. */
  lemma DateLayout(d: string, mo: string, y: string, h: string, mi: string)
    requires |d| == 2 && |mo| == 2 && |h| == 2 && |mi| == 2 && |y| >= 1
    ensures var r := d + "/" + mo + "/" + y + " " + h + ":" + mi;
      && |r| >= 13 && r[2] == '/' && r[5] == '/' && r[|r| - 6] == ' ' && r[|r| - 3] == ':'
      && r[..2] == d && r[3..5] == mo && r[6..|r| - 6] == y && r[|r| - 5..|r| - 3] == h && r[|r| - 2..] == mi
  {
  }

  /** The formatted date reads back: day and month are the first two two-digit fields, the year
      follows, and hours and minutes are the last two two-digit fields. */
  lemma FormatDateSimpleReadsBack(dateStr: string, parse: string -> Option<Moment>)
    requires dateStr != "" && parse(dateStr).Some? && ValidMoment(parse(dateStr).value)
    ensures var m := parse(dateStr).value;
      var r := FormatDateSimple(Some(dateStr), parse);
      && |r| >= 13 && r[2] == '/' && r[5] == '/' && r[|r| - 6] == ' ' && r[|r| - 3] == ':'
      && AllDigits(r[..2]) && DigitsValue(r[..2]) == m.day
      && AllDigits(r[3..5]) && DigitsValue(r[3..5]) == m.month
      && AllDigits(r[6..|r| - 6]) && DigitsValue(r[6..|r| - 6]) == m.year
      && AllDigits(r[|r| - 5..|r| - 3]) && DigitsValue(r[|r| - 5..|r| - 3]) == m.hours
      && AllDigits(r[|r| - 2..]) && DigitsValue(r[|r| - 2..]) == m.minutes
  {
    var m := parse(dateStr).value;
    Pad2RoundTrip(m.day);
    Pad2RoundTrip(m.month);
    Pad2RoundTrip(m.hours);
    Pad2RoundTrip(m.minutes);
    NatToStringRoundTrip(m.year);
    DateLayout(Pad2(m.day), Pad2(m.month), NatToString(m.year), Pad2(m.hours), Pad2(m.minutes));
    assert FormatDateSimple(Some(dateStr), parse)
      == Pad2(m.day) + "/" + Pad2(m.month) + "/" + NatToString(m.year) + " " + Pad2(m.hours) + ":" + Pad2(m.minutes);
  }
}
