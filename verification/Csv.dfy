/**
 * Comma-separated text as both exporters write it, and a reader for the
 * grammar of section 2 of RFC 4180 (with a bare line feed as the record
 * terminator, which is what the exporters emit). A field is either written
 * as it is, or, per rules 5-7, enclosed in double quotes with every inner
 * double quote doubled.
 */
module Csv {
  import opened Common
  import opened Text

  /** A file handed to the browser's download: its name and its text. */
  datatype CsvFile = CsvFile(name: string, content: string)

  /** One field of an output line: written verbatim, or quoted. */
  datatype Cell = Plain(text: string) | Quoted(text: string)

  /** A verbatim field a reader can take back unchanged: no delimiter, no
      double quote (rule 5) and no line break inside it. */
  predicate PlainSafe(s: string) {
    ',' !in s && '"' !in s && '\n' !in s
  }

  /** `PlainSafe`, stated character by character. */
  lemma CharsSafe(s: string)
    requires forall i :: 0 <= i < |s| ==> s[i] != ',' && s[i] != '"' && s[i] != '\n'
    ensures PlainSafe(s)
  {
  }

  predicate CellSafe(c: Cell) {
    c.Plain? ==> PlainSafe(c.text)
  }

  predicate CellsSafe(cells: seq<Cell>) {
    forall j :: 0 <= j < |cells| ==> CellSafe(cells[j])
  }

  /** Every inner `"` doubled (rule 7): `value.replace(/"/g, '""')`. */
  function EscapeQuotes(v: string): (r: string)
    ensures |r| >= |v|
  {
    if |v| == 0 then ""
    else (if v[0] == '"' then "\"\"" else [v[0]]) + EscapeQuotes(v[1..])
  }

  function Encode(c: Cell): string {
    match c
    case Plain(t) => t
    case Quoted(t) => "\"" + EscapeQuotes(t) + "\""
  }

  function EncodeAll(cells: seq<Cell>): (r: seq<string>)
    ensures |r| == |cells|
    ensures forall i :: 0 <= i < |cells| ==> r[i] == Encode(cells[i])
  {
    if |cells| == 0 then [] else [Encode(cells[0])] + EncodeAll(cells[1..])
  }

  function Values(cells: seq<Cell>): (r: seq<string>)
    ensures |r| == |cells|
    ensures forall i :: 0 <= i < |cells| ==> r[i] == cells[i].text
  {
    if |cells| == 0 then [] else [cells[0].text] + Values(cells[1..])
  }

  /** Every value written verbatim. */
  function PlainCells(vs: seq<string>): (r: seq<Cell>)
    ensures |r| == |vs|
    ensures forall i :: 0 <= i < |vs| ==> r[i] == Plain(vs[i])
  {
    if |vs| == 0 then [] else [Plain(vs[0])] + PlainCells(vs[1..])
  }

  /** Verbatim cells are written and read back as their values. */
  lemma PlainCellsText(vs: seq<string>)
    ensures EncodeAll(PlainCells(vs)) == vs && Values(PlainCells(vs)) == vs
  {
    assert forall i :: 0 <= i < |vs| ==> EncodeAll(PlainCells(vs))[i] == vs[i];
    assert forall i :: 0 <= i < |vs| ==> Values(PlainCells(vs))[i] == vs[i];
  }

  /** One output line: the encoded fields joined by `,`. */
  function Line(cells: seq<Cell>): string {
    Join(EncodeAll(cells), ',')
  }

  // ---------------------------------------------------------------- reader

  /** The inside of a quoted field, read after its opening quote: the value and
      the text after the closing quote; `None` when the quote is never closed. */
  function ParseEscaped(s: string): (r: Option<(string, string)>)
    ensures r.Some? ==> |r.value.1| < |s|
    decreases |s|
  {
    if |s| == 0 then None
    else if s[0] == '"' then
      if |s| >= 2 && s[1] == '"' then
        match ParseEscaped(s[2..])
        case None => None
        case Some(p) => Some(("\"" + p.0, p.1))
      else Some(("", s[1..]))
    else
      match ParseEscaped(s[1..])
      case None => None
      case Some(p) => Some(([s[0]] + p.0, p.1))
  }

  /** A verbatim field: everything up to the next `,` or line feed. */
  function ParsePlain(s: string): (r: (string, string))
    ensures |r.0| + |r.1| == |s| && s == r.0 + r.1
    ensures |r.1| == 0 || r.1[0] == ',' || r.1[0] == '\n'
    decreases |s|
  {
    if |s| == 0 || s[0] == ',' || s[0] == '\n' then ("", s)
    else
      var p := ParsePlain(s[1..]);
      assert s == [s[0]] + s[1..];
      ([s[0]] + p.0, p.1)
  }

  function ParseField(s: string): (r: Option<(string, string)>)
    ensures r.Some? ==> |r.value.1| <= |s|
  {
    if |s| > 0 && s[0] == '"' then ParseEscaped(s[1..]) else Some(ParsePlain(s))
  }

  /** One record: its fields and the text after its line feed (or ""). A
      field followed by anything but `,`, a line feed or the end is malformed. */
  function ParseRecord(s: string): (r: Option<(seq<string>, string)>)
    ensures r.Some? ==> |r.value.0| >= 1
    ensures r.Some? && |s| > 0 ==> |r.value.1| < |s|
    decreases |s|
  {
    match ParseField(s)
    case None => None
    case Some(p) =>
      var f := p.0;
      var rest := p.1;
      if |rest| == 0 then Some(([f], ""))
      else if rest[0] == '\n' then Some(([f], rest[1..]))
      else if rest[0] == ',' then
        match ParseRecord(rest[1..])
        case None => None
        case Some(q) => Some(([f] + q.0, q.1))
      else None
  }

  /** A whole document: the records in order (rule 2: the last line feed is optional). */
  function ParseDocument(s: string): (r: Option<seq<seq<string>>>)
    decreases |s|
  {
    if |s| == 0 then Some([])
    else
      match ParseRecord(s)
      case None => None
      case Some(p) =>
        match ParseDocument(p.1)
        case None => None
        case Some(rows) => Some([p.0] + rows)
  }

  // ---------------------------------------------------------------- round trips

  /** Reading a doubled quote yields one quote and continues. */
  lemma ParseEscapedDoubled(t: string)
    ensures ParseEscaped("\"\"" + t) ==
      (match ParseEscaped(t) case None => None case Some(p) => Some(("\"" + p.0, p.1)))
  {
    var s := "\"\"" + t;
    assert s[2..] == t;
  }

  /** Reading any other character keeps it and continues. */
  lemma ParseEscapedOther(c: char, t: string)
    requires c != '"'
    ensures ParseEscaped([c] + t) ==
      (match ParseEscaped(t) case None => None case Some(p) => Some(([c] + p.0, p.1)))
  {
    var s := [c] + t;
    assert s[1..] == t;
  }

  /** A quoted field reads back as its value, whatever the value contains. */
  lemma {:induction false} EscapedRoundTrip(v: string, rest: string)
    requires |rest| == 0 || rest[0] != '"'
    ensures ParseEscaped(EscapeQuotes(v) + "\"" + rest) == Some((v, rest))
    decreases |v|
  {
    var s := EscapeQuotes(v) + "\"" + rest;
    if |v| == 0 {
      assert s == "\"" + rest;
      assert s[1..] == rest;
    } else {
      var tail := EscapeQuotes(v[1..]) + "\"" + rest;
      EscapedRoundTrip(v[1..], rest);
      assert v == [v[0]] + v[1..];
      if v[0] == '"' {
        assert EscapeQuotes(v) == "\"\"" + EscapeQuotes(v[1..]);
        assert s == "\"\"" + tail;
        ParseEscapedDoubled(tail);
      } else {
        assert EscapeQuotes(v) == [v[0]] + EscapeQuotes(v[1..]);
        assert s == [v[0]] + tail;
        ParseEscapedOther(v[0], tail);
      }
    }
  }

  /** A safe verbatim field reads back as itself. */
  lemma {:induction false} PlainRoundTrip(t: string, rest: string)
    requires PlainSafe(t)
    requires |rest| == 0 || rest[0] == ',' || rest[0] == '\n'
    ensures ParsePlain(t + rest) == (t, rest)
    decreases |t|
  {
    if |t| > 0 {
      PlainRoundTrip(t[1..], rest);
      assert (t + rest)[1..] == t[1..] + rest;
      assert t == [t[0]] + t[1..];
    } else {
      assert t + rest == rest;
    }
  }

  /** Every encoded cell reads back as its value, stopping at the next `,` or line feed. */
  lemma FieldRoundTrip(c: Cell, rest: string)
    requires CellSafe(c)
    requires |rest| == 0 || rest[0] == ',' || rest[0] == '\n'
    ensures ParseField(Encode(c) + rest) == Some((c.text, rest))
  {
    match c
    case Plain(t) =>
      PlainRoundTrip(t, rest);
      if |t| == 0 {
        assert t + rest == rest;
      }
    case Quoted(t) =>
      EscapedRoundTrip(t, rest);
      var s := Encode(c) + rest;
      assert s == "\"" + (EscapeQuotes(t) + "\"" + rest);
      assert s[1..] == EscapeQuotes(t) + "\"" + rest;
  }

  /** A line of safe cells, followed by the end or by a line feed, reads back
      as the cells' values (RFC 4180 section 2, rules 4-7). */
  lemma {:induction false} RecordRoundTrip(cells: seq<Cell>, tail: string, more: string)
    requires |cells| >= 1 && CellsSafe(cells)
    requires tail == "" || tail == "\n" + more
    ensures ParseRecord(Line(cells) + tail) == Some((Values(cells), if tail == "" then "" else more))
    decreases |cells|
  {
    var enc := EncodeAll(cells);
    var s := Line(cells) + tail;
    if |cells| == 1 {
      assert Line(cells) == Encode(cells[0]);
      FieldRoundTrip(cells[0], tail);
      assert Values(cells) == [cells[0].text];
      if tail != "" {
        assert tail[0] == '\n';
        assert tail[1..] == more;
      }
    } else {
      var rest := Line(cells[1..]) + tail;
      assert EncodeAll(cells)[1..] == EncodeAll(cells[1..]);
      assert Line(cells) == Encode(cells[0]) + [','] + Line(cells[1..]);
      assert s == Encode(cells[0]) + ("," + rest);
      FieldRoundTrip(cells[0], "," + rest);
      RecordRoundTrip(cells[1..], tail, more);
      assert ("," + rest)[1..] == rest;
      assert Values(cells) == [cells[0].text] + Values(cells[1..]);
    }
  }

  /** The rows' values, as a reader returns them. */
  function AllValues(rows: seq<seq<Cell>>): (r: seq<seq<string>>)
    ensures |r| == |rows|
    ensures forall i :: 0 <= i < |rows| ==> r[i] == Values(rows[i])
  {
    if |rows| == 0 then [] else [Values(rows[0])] + AllValues(rows[1..])
  }

  /** Rows a reader takes back unchanged: every cell safe and every row at
      least `width` cells wide. */
  predicate Writable(rows: seq<seq<Cell>>, width: nat) {
    forall i :: 0 <= i < |rows| ==> |rows[i]| >= width && CellsSafe(rows[i])
  }

  /** Every line followed by a line feed, the form `downloadCSV` writes. */
  function TerminatedLines(rows: seq<seq<Cell>>): string
  {
    if |rows| == 0 then "" else Line(rows[0]) + "\n" + TerminatedLines(rows[1..])
  }

  /** A document of terminated lines reads back as the rows' values. */
  lemma {:induction false} TerminatedRoundTrip(rows: seq<seq<Cell>>)
    requires Writable(rows, 1)
    ensures ParseDocument(TerminatedLines(rows)) == Some(AllValues(rows))
    decreases |rows|
  {
    if |rows| > 0 {
      var more := TerminatedLines(rows[1..]);
      assert TerminatedLines(rows) == Line(rows[0]) + ("\n" + more);
      RecordRoundTrip(rows[0], "\n" + more, more);
      WritableTail(rows, 1);
      TerminatedRoundTrip(rows[1..]);
    }
  }

  lemma WritableTail(rows: seq<seq<Cell>>, width: nat)
    requires |rows| > 0 && Writable(rows, width)
    ensures Writable(rows[1..], width)
  {
    assert forall i :: 0 <= i < |rows| - 1 ==> rows[1..][i] == rows[i + 1];
  }

  lemma WritableCons(row: seq<Cell>, rows: seq<seq<Cell>>, width: nat)
    requires |row| >= width && CellsSafe(row) && Writable(rows, width)
    ensures Writable([row] + rows, width)
  {
    assert forall i :: 0 < i <= |rows| ==> ([row] + rows)[i] == rows[i - 1];
  }
}
