/** The table export: a printer, and a reader for the format of section 2 of RFC 4180. */
module Csv {
  import opened Wrappers

  /** A cell as the server sent it; null and absent values print as nothing. */
  datatype Cell = Missing | Text(text: string)

  datatype Column = Column(key: string, heading: string)

  type Item = map<string, Cell>

  type Record = seq<string>

  const CRLF: string := "\r\n"

  predicate Special(c: char) { c == '"' || c == ',' || c == '\r' || c == '\n' }

  predicate NeedsQuotes(s: string) { exists i :: 0 <= i < |s| && Special(s[i]) }

  function Doubled(s: string): string {
    if s == "" then "" else (if s[0] == '"' then ['"', '"'] else [s[0]]) + Doubled(s[1..])
  }

  function CsvEscape(s: string): string {
    if NeedsQuotes(s) then ['"'] + Doubled(s) + ['"'] else s
  }

  function TextOf(item: Item, key: string): string {
    if key in item && item[key].Text? then item[key].text else ""
  }

  function Join(parts: seq<string>, separator: string): string {
    if parts == [] then "" else if |parts| == 1 then parts[0] else parts[0] + separator + Join(parts[1..], separator)
  }

  function Labels(columns: seq<Column>): (r: Record)
    ensures |r| == |columns|
  {
    if columns == [] then [] else [columns[0].heading] + Labels(columns[1..])
  }

  function Fields(columns: seq<Column>, item: Item): (r: Record)
    ensures |r| == |columns|
  {
    if columns == [] then [] else [TextOf(item, columns[0].key)] + Fields(columns[1..], item)
  }

  function Escapes(r: Record): (e: seq<string>)
    ensures |e| == |r|
  {
    if r == [] then [] else [CsvEscape(r[0])] + Escapes(r[1..])
  }

  function Line(r: Record): string { Join(Escapes(r), ",") }

  function Lines(rs: seq<Record>): (ls: seq<string>)
    ensures |ls| == |rs|
  {
    if rs == [] then [] else [Line(rs[0])] + Lines(rs[1..])
  }

  function RowRecords(columns: seq<Column>, rows: seq<Item>): (rs: seq<Record>)
    ensures |rs| == |rows|
    ensures forall i :: 0 <= i < |rs| ==> |rs[i]| == |columns|
  {
    if rows == [] then [] else [Fields(columns, rows[0])] + RowRecords(columns, rows[1..])
  }

  /** Header and rows as plain strings. */
  function Records(columns: seq<Column>, rows: seq<Item>): seq<Record> {
    [Labels(columns)] + RowRecords(columns, rows)
  }

  function ToCsv(columns: seq<Column>, rows: seq<Item>): string {
    Join(Lines(Records(columns, rows)), CRLF)
  }

  // ---------------------------------------------------------------- the reader

  datatype Read<T> = Read(value: T, rest: string)

  function Prepend(c: char, r: Option<Read<string>>): Option<Read<string>> {
    if r.Some? then Some(Read([c] + r.value.value, r.value.rest)) else None
  }

  function ReadBare(t: string): (r: Option<Read<string>>)
    ensures r.Some? ==> |r.value.rest| <= |t|
  {
    if t == "" || Special(t[0]) then Some(Read("", t)) else Prepend(t[0], ReadBare(t[1..]))
  }

  /** After the opening quote. */
  function ReadQuoted(t: string): (r: Option<Read<string>>)
    ensures r.Some? ==> |r.value.rest| < |t|
  {
    if t == "" then None
    else if t[0] != '"' then Prepend(t[0], ReadQuoted(t[1..]))
    else if |t| > 1 && t[1] == '"' then Prepend('"', ReadQuoted(t[2..]))
    else Some(Read("", t[1..]))
  }

  function ReadField(t: string): (r: Option<Read<string>>)
    ensures r.Some? ==> |r.value.rest| <= |t|
  {
    if t != "" && t[0] == '"' then ReadQuoted(t[1..]) else ReadBare(t)
  }

  /** One record, up to the end of the text or a line break. */
  function ReadRecord(t: string): (r: Option<Read<Record>>)
    ensures r.Some? ==> |r.value.value| > 0 && |r.value.rest| <= |t|
    decreases |t|
  {
    var f := ReadField(t);
    if f.None? then None
    else
      var rest := f.value.rest;
      if rest != "" && rest[0] == ',' then
        var r := ReadRecord(rest[1..]);
        if r.None? then None else Some(Read([f.value.value] + r.value.value, r.value.rest))
      else if rest == "" || CRLF <= rest then Some(Read([f.value.value], rest))
      else None
  }

  /** Records separated by line breaks; the last one may be followed by one. */
  function ReadFile(t: string): (r: Option<seq<Record>>)
    ensures r.Some? ==> |r.value| > 0 && forall i :: 0 <= i < |r.value| ==> |r.value[i]| > 0
    decreases |t|
  {
    var first := ReadRecord(t);
    if first.None? then None
    else
      var rest := first.value.rest;
      if |rest| <= 2 then Some([first.value.value])
      else
        var others := ReadFile(rest[2..]);
        if others.None? then None else Some([first.value.value] + others.value)
  }

  // ---------------------------------------------------------------- round trip

  /** Where a field may end. */
  predicate Boundary(rest: string) { rest == "" || rest[0] == ',' || CRLF <= rest }

  lemma {:induction false} BareRoundTrip(s: string, rest: string)
    requires !NeedsQuotes(s) && Boundary(rest)
    ensures ReadBare(s + rest) == Some(Read(s, rest))
  {
    if s == "" {
      assert s + rest == rest;
    } else {
      assert (s + rest)[1..] == s[1..] + rest;
      assert forall i :: 0 <= i < |s| ==> !Special(s[i]);
      BareRoundTrip(s[1..], rest);
      assert [s[0]] + s[1..] == s;
    }
  }

  lemma {:induction false} QuotedRoundTrip(s: string, rest: string)
    requires Boundary(rest)
    ensures ReadQuoted(Doubled(s) + ['"'] + rest) == Some(Read(s, rest))
  {
    var t := Doubled(s) + ['"'] + rest;
    if s == "" {
      assert t[1..] == rest;
    } else {
      QuotedRoundTrip(s[1..], rest);
      var k := if s[0] == '"' then 2 else 1;
      assert t[k..] == Doubled(s[1..]) + ['"'] + rest;
      assert [s[0]] + s[1..] == s;
    }
  }

  lemma FieldRoundTrip(s: string, rest: string)
    requires Boundary(rest)
    ensures ReadField(CsvEscape(s) + rest) == Some(Read(s, rest))
  {
    hide ReadBare, ReadQuoted, Doubled;
    var t := CsvEscape(s) + rest;
    if NeedsQuotes(s) {
      QuotedRoundTrip(s, rest);
      assert t[1..] == Doubled(s) + ['"'] + rest;
    } else {
      hide ReadQuoted;
      BareRoundTrip(s, rest);
      if s != "" { assert !Special(s[0]); }
    }
  }

  lemma LineCons(r: Record)
    requires |r| > 1
    ensures Line(r) == CsvEscape(r[0]) + "," + Line(r[1..])
  {
    hide CsvEscape;
    assert Escapes(r)[1..] == Escapes(r[1..]);
  }

  lemma {:induction false} RecordRoundTrip(r: Record, rest: string)
    requires |r| > 0 && (rest == "" || CRLF <= rest)
    ensures ReadRecord(Line(r) + rest) == Some(Read(r, rest))
    decreases |r|
  {
    hide CsvEscape, ReadField, NeedsQuotes;
    if |r| == 1 {
      FieldRoundTrip(r[0], rest);
      assert r == [r[0]];
    } else {
      hide Line;
      LineCons(r);
      var tail := "," + (Line(r[1..]) + rest);
      FieldRoundTrip(r[0], tail);
      RecordRoundTrip(r[1..], rest);
      assert Line(r) + rest == CsvEscape(r[0]) + tail;
      assert tail[1..] == Line(r[1..]) + rest;
      assert [r[0]] + r[1..] == r;
    }
  }

  /** Only the record of one empty field prints as nothing. */
  lemma EmptyLine(r: Record)
    requires |r| > 0
    ensures Line(r) == "" <==> r == [""]
  {
    if |r| == 1 { assert r == [r[0]]; }
  }

  lemma JoinIsEmpty(rs: seq<Record>)
    requires |rs| > 0 && forall i :: 0 <= i < |rs| ==> |rs[i]| > 0
    ensures Join(Lines(rs), CRLF) == "" <==> rs == [[""]]
  {
    EmptyLine(rs[0]);
    if |rs| == 1 { assert rs == [rs[0]]; }
  }

  /** The final line break is optional: a last record that prints as nothing is taken for one. */
  function Readable(rs: seq<Record>): seq<Record> {
    if |rs| > 1 && rs[|rs| - 1] == [""] then rs[..|rs| - 1] else rs
  }

  lemma {:induction false} FileRoundTrip(rs: seq<Record>)
    requires |rs| > 0 && forall i :: 0 <= i < |rs| ==> |rs[i]| > 0
    ensures ReadFile(Join(Lines(rs), CRLF)) == Some(Readable(rs))
    decreases |rs|
  {
    var t := Join(Lines(rs), CRLF);
    assert Lines(rs)[1..] == Lines(rs[1..]);
    if |rs| == 1 {
      RecordRoundTrip(rs[0], "");
      assert Line(rs[0]) + "" == t;
      assert rs == [rs[0]];
    } else {
      var others := Join(Lines(rs[1..]), CRLF);
      var tail := CRLF + others;
      assert t == Line(rs[0]) + tail;
      RecordRoundTrip(rs[0], tail);
      assert tail[2..] == others;
      JoinIsEmpty(rs[1..]);
      if others == "" {
        assert rs[|rs| - 1] == rs[1..][|rs| - 2] == [""];
        assert |rs| == 2 && Readable(rs) == [rs[0]];
      } else {
        FileRoundTrip(rs[1..]);
        TailReadable(rs);
      }
    }
  }

  lemma TailReadable(rs: seq<Record>)
    requires |rs| > 1 && rs[1..] != [[""]]
    ensures [rs[0]] + Readable(rs[1..]) == Readable(rs)
  {
    assert rs[1..][|rs| - 2] == rs[|rs| - 1];
    if |rs| == 2 { assert rs[1..] == [rs[1]]; }
  }

  /** Two columns are enough; one column needs a last row that prints as something. */
  predicate Exportable(columns: seq<Column>, rows: seq<Item>) {
    |columns| > 1 || (|columns| == 1 && (rows == [] || TextOf(rows[|rows| - 1], columns[0].key) != ""))
  }

  lemma {:induction false} LastRow(columns: seq<Column>, rows: seq<Item>)
    requires |rows| > 0
    ensures RowRecords(columns, rows)[|rows| - 1] == Fields(columns, rows[|rows| - 1])
    decreases |rows|
  {
    if |rows| > 1 { LastRow(columns, rows[1..]); }
  }

  /** Reading an export gives back exactly its header and fields, if and only if it is exportable. */
  lemma CsvRoundTripIff(columns: seq<Column>, rows: seq<Item>)
    ensures ReadFile(ToCsv(columns, rows)) == Some(Records(columns, rows)) <==> Exportable(columns, rows)
  {
    var rs := Records(columns, rows);
    if columns == [] {
      assert |rs[0]| == 0;
    } else {
      FileRoundTrip(rs);
      if rows != [] {
        LastRow(columns, rows);
        var last := Fields(columns, rows[|rows| - 1]);
        assert rs[|rs| - 1] == last && last[0] == TextOf(rows[|rows| - 1], columns[0].key);
        assert |columns| == 1 ==> last == [last[0]];
      }
    }
  }

  /** A field is quoted exactly when it contains a comma, a quote or a line break. */
  lemma UnquotedIff(s: string)
    ensures CsvEscape(s) == s <==>
              forall i :: 0 <= i < |s| ==> s[i] != ',' && s[i] != '"' && s[i] != '\r' && s[i] != '\n'
  {
    if NeedsQuotes(s) { DoubledLength(s); }
  }

  lemma {:induction false} DoubledLength(s: string)
    ensures |Doubled(s)| >= |s|
  {
    if s != "" { DoubledLength(s[1..]); }
  }

  lemma {:induction false} LabelAt(columns: seq<Column>, i: nat)
    requires i < |columns|
    ensures Labels(columns)[i] == columns[i].heading
  {
    if i > 0 { LabelAt(columns[1..], i - 1); }
  }

  lemma {:induction false} FieldAt(columns: seq<Column>, item: Item, i: nat)
    requires i < |columns|
    ensures Fields(columns, item)[i]
         == if columns[i].key in item && item[columns[i].key].Text? then item[columns[i].key].text else ""
  {
    if i > 0 { FieldAt(columns[1..], item, i - 1); }
  }

  lemma {:induction false} RowAt(columns: seq<Column>, rows: seq<Item>, j: nat)
    requires j < |rows|
    ensures RowRecords(columns, rows)[j] == Fields(columns, rows[j])
  {
    if j > 0 { RowAt(columns, rows[1..], j - 1); }
  }

  /** The header holds the headings in column order; each row the values of its keys, with nothing for
      null and absent ones. */
  lemma RecordsAre(columns: seq<Column>, rows: seq<Item>, i: nat, j: nat)
    requires i < |columns|
    ensures var rs := Records(columns, rows);
            && |rs| == 1 + |rows| && |rs[0]| == |columns| && rs[0][i] == columns[i].heading
            && (j < |rows| ==>
                  && |rs[j + 1]| == |columns|
                  && rs[j + 1][i] == if columns[i].key in rows[j] && rows[j][columns[i].key].Text?
                                     then rows[j][columns[i].key].text else "")
  {
    LabelAt(columns, i);
    if j < |rows| {
      RowAt(columns, rows, j);
      FieldAt(columns, rows[j], i);
    }
  }
}
