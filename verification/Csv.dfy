/**
 CSV writing, against a quoting reader after section 2 of RFC 4180 with LF as the line terminator. A strict
 reader also refuses a carriage return in an unquoted field, as that section does; a lenient one takes it as text.
 */
module Csv {
  import opened Prelude

  // ---- Writing ----

  function Doubled(s: string): string {
    if s == [] then []
    else (if s[0] == '"' then "\"\"" else [s[0]]) + Doubled(s[1..])
  }

  function Quoted(s: string): string {
    "\"" + Doubled(s) + "\""
  }

  predicate NeedsQuotes(value: string) {
    ',' in value || '"' in value || '\n' in value
  }

  function CsvEscape(value: string): string {
    if NeedsQuotes(value) then Quoted(value) else value
  }

  /** `join(",")` */
  function Joined(fields: seq<string>): string {
    if fields == [] then ""
    else if |fields| == 1 then fields[0]
    else fields[0] + "," + Joined(fields[1..])
  }

  function Lines(rows: seq<seq<string>>): string {
    if rows == [] then "" else Joined(rows[0]) + "\n" + Lines(rows[1..])
  }

  /** `to_csv`: a header line, then one line per row. */
  method ToCsv(headers: seq<string>, rows: seq<seq<string>>) returns (out: string)
    ensures out == Lines([headers] + rows)
  {
    out := Joined(headers) + "\n";
    var i := 0;
    assert [headers] + rows[..0] == [headers];
    while i < |rows|
      invariant 0 <= i <= |rows|
      invariant out == Lines([headers] + rows[..i])
    {
      LinesAppend([headers] + rows[..i], rows[i]);
      assert [headers] + rows[..i + 1] == [headers] + rows[..i] + [rows[i]];
      out := out + Joined(rows[i]) + "\n";
      i := i + 1;
    }
    assert rows[..i] == rows;
  }

  lemma {:induction false} LinesAppend(rows: seq<seq<string>>, row: seq<string>)
    ensures Lines(rows + [row]) == Lines(rows) + Joined(row) + "\n"
  {
    if rows == [] {
      assert [] + [row] == [row];
      assert Lines([row][1..]) == "";
    } else {
      assert (rows + [row])[1..] == rows[1..] + [row];
      LinesAppend(rows[1..], row);
    }
  }

  function EscapedRow(row: seq<string>): (r: seq<string>)
    ensures |r| == |row| && forall i :: 0 <= i < |row| ==> r[i] == CsvEscape(row[i])
  {
    seq(|row|, i requires 0 <= i < |row| => CsvEscape(row[i]))
  }

  function EscapedRows(rows: seq<seq<string>>): (r: seq<seq<string>>)
    ensures |r| == |rows| && forall i :: 0 <= i < |rows| ==> r[i] == EscapedRow(rows[i])
  {
    seq(|rows|, i requires 0 <= i < |rows| => EscapedRow(rows[i]))
  }

  // ---- Reading ----

  datatype Read<T> = Read(value: T, rest: string)

  /** Characters up to the next separator; a quote may not appear here. */
  function ReadPlain(strict: bool, t: string): (r: Option<Read<string>>)
    ensures r.Some? ==> |r.value.rest| <= |t|
  {
    if t == [] || t[0] == ',' || t[0] == '\n' then Some(Read("", t))
    else if t[0] == '"' || (strict && t[0] == '\r') then None
    else match ReadPlain(strict, t[1..])
      case None => None
      case Some(r) => Some(Read([t[0]] + r.value, r.rest))
  }

  /** Characters up to the closing quote; a doubled quote stands for one. */
  function ReadQuoted(t: string): (r: Option<Read<string>>)
    ensures r.Some? ==> |r.value.rest| < |t|
    decreases |t|
  {
    if t == [] then None
    else if t[0] == '"' && !(|t| > 1 && t[1] == '"') then Some(Read("", t[1..]))
    else
      match ReadQuoted(if t[0] == '"' then t[2..] else t[1..])
      case None => None
      case Some(r) => Some(Read([t[0]] + r.value, r.rest))
  }

  function ReadField(strict: bool, t: string): (r: Option<Read<string>>)
    ensures r.Some? ==> |r.value.rest| <= |t|
  {
    if t != [] && t[0] == '"' then ReadQuoted(t[1..]) else ReadPlain(strict, t)
  }

  /** One record, which must end with a line feed. */
  function ReadRecord(strict: bool, t: string): (r: Option<Read<seq<string>>>)
    ensures r.Some? ==> |r.value.rest| < |t|
    decreases |t|
  {
    match ReadField(strict, t)
    case None => None
    case Some(f) =>
      if f.rest == [] then None
      else if f.rest[0] == '\n' then Some(Read([f.value], f.rest[1..]))
      else if f.rest[0] != ',' then None
      else match ReadRecord(strict, f.rest[1..])
        case None => None
        case Some(r) => Some(Read([f.value] + r.value, r.rest))
  }

  function ReadCsv(strict: bool, t: string): Option<seq<seq<string>>>
    decreases |t|
  {
    if t == [] then Some([])
    else match ReadRecord(strict, t)
      case None => None
      case Some(r) =>
        match ReadCsv(strict, r.rest)
        case None => None
        case Some(more) => Some([r.value] + more)
  }

  // ---- Reading back what was written ----

  predicate StartsWithQuote(t: string) {
    t != [] && t[0] == '"'
  }

  predicate StartsWithSeparator(t: string) {
    t != [] && (t[0] == ',' || t[0] == '\n')
  }

  /** A strict reader takes a carriage return only inside quotes, which `csv_escape` does not add on its account. */
  predicate Acceptable(strict: bool, s: string) {
    strict && '\r' in s ==> NeedsQuotes(s)
  }

  predicate RowAcceptable(strict: bool, row: seq<string>) {
    forall s :: s in row ==> Acceptable(strict, s)
  }

  lemma {:induction false} PlainRoundTrip(strict: bool, s: string, tail: string)
    requires !NeedsQuotes(s) && StartsWithSeparator(tail)
    ensures ReadPlain(strict, s + tail) == if strict && '\r' in s then None else Some(Read(s, tail))
  {
    if s == [] {
      assert s + tail == tail;
    } else {
      assert (s + tail)[1..] == s[1..] + tail;
      assert s[0] in s;
      assert [s[0]] + s[1..] == s;
      PlainRoundTrip(strict, s[1..], tail);
    }
  }

  lemma {:induction false} QuotedRoundTrip(s: string, tail: string)
    requires !StartsWithQuote(tail)
    ensures ReadQuoted(Doubled(s) + "\"" + tail) == Some(Read(s, tail))
  {
    if s == [] {
      assert Doubled(s) + "\"" + tail == "\"" + tail;
    } else {
      var head := if s[0] == '"' then "\"\"" else [s[0]];
      var text := Doubled(s[1..]) + "\"" + tail;
      assert Doubled(s) + "\"" + tail == head + text;
      assert (head + text)[|head|..] == text;
      QuotedRoundTrip(s[1..], tail);
      assert [s[0]] + s[1..] == s;
    }
  }

  lemma QuotedFieldRoundTrip(strict: bool, s: string, tail: string)
    requires !StartsWithQuote(tail)
    ensures ReadField(strict, Quoted(s) + tail) == Some(Read(s, tail))
  {
    var body := Doubled(s) + "\"" + tail;
    var text := Quoted(s) + tail;
    assert text == "\"" + body;
    assert text[0] == '"' && text[1..] == body;
    assert ReadField(strict, text) == ReadQuoted(body);
    QuotedRoundTrip(s, tail);
  }

  /** Nothing but a separator may follow a closing quote. */
  lemma RefusedAfterQuote(strict: bool, s: string, tail: string)
    requires tail != [] && !StartsWithQuote(tail) && !StartsWithSeparator(tail)
    ensures ReadRecord(strict, Quoted(s) + tail) == None
  {
    QuotedFieldRoundTrip(strict, s, tail);
  }

  /** An escaped field before a separator reads back exactly, or is refused if it is not acceptable. */
  lemma FieldRoundTrip(strict: bool, s: string, tail: string)
    requires StartsWithSeparator(tail)
    ensures ReadField(strict, CsvEscape(s) + tail) == if Acceptable(strict, s) then Some(Read(s, tail)) else None
  {
    if NeedsQuotes(s) {
      QuotedFieldRoundTrip(strict, s, tail);
    } else {
      PlainStart(s, tail);
      PlainRoundTrip(strict, s, tail);
    }
  }

  lemma PlainStart(s: string, tail: string)
    requires !NeedsQuotes(s) && StartsWithSeparator(tail)
    ensures (s + tail)[0] != '"'
  {
    if s != [] {
      assert s[0] in s;
    }
  }

  /** What a reader makes of a written row: an empty row is one empty field. */
  function Shown(row: seq<string>): seq<string> {
    if row == [] then [""] else row
  }

  lemma {:induction false} RecordRoundTrip(strict: bool, row: seq<string>, more: string)
    ensures ReadRecord(strict, Joined(EscapedRow(row)) + "\n" + more)
         == if RowAcceptable(strict, row) then Some(Read(Shown(row), more)) else None
    decreases |row|
  {
    var tail := "\n" + more;
    if row == [] {
      assert Joined(EscapedRow(row)) + "\n" + more == CsvEscape("") + tail;
      FieldRoundTrip(strict, "", tail);
    } else if |row| == 1 {
      assert Joined(EscapedRow(row)) + "\n" + more == CsvEscape(row[0]) + tail;
      FieldRoundTrip(strict, row[0], tail);
      assert [row[0]] == row;
    } else {
      assert EscapedRow(row)[1..] == EscapedRow(row[1..]);
      var others := Joined(EscapedRow(row[1..])) + "\n" + more;
      assert Joined(EscapedRow(row)) + "\n" + more == CsvEscape(row[0]) + ("," + others);
      FieldRoundTrip(strict, row[0], "," + others);
      assert ("," + others)[1..] == others;
      RecordRoundTrip(strict, row[1..], more);
      assert [row[0]] + row[1..] == row;
    }
  }

  function ShownRows(rows: seq<seq<string>>): (r: seq<seq<string>>)
    ensures |r| == |rows| && forall i :: 0 <= i < |rows| ==> r[i] == Shown(rows[i])
  {
    seq(|rows|, i requires 0 <= i < |rows| => Shown(rows[i]))
  }

  predicate RowsAcceptable(strict: bool, rows: seq<seq<string>>) {
    forall row :: row in rows ==> RowAcceptable(strict, row)
  }

  lemma AcceptableTail(strict: bool, rows: seq<seq<string>>)
    requires rows != []
    ensures RowsAcceptable(strict, rows) <==> RowAcceptable(strict, rows[0]) && RowsAcceptable(strict, rows[1..])
  {
    assert rows == [rows[0]] + rows[1..];
  }

  /** Every written text reads back, with empty rows shown as one empty field, unless some field is refused. */
  lemma {:induction false} LinesReadBack(strict: bool, rows: seq<seq<string>>)
    ensures ReadCsv(strict, Lines(EscapedRows(rows)))
         == if RowsAcceptable(strict, rows) then Some(ShownRows(rows)) else None
  {
    if rows == [] {
    } else {
      var more := Lines(EscapedRows(rows[1..]));
      assert EscapedRows(rows)[1..] == EscapedRows(rows[1..]);
      assert Lines(EscapedRows(rows)) == Joined(EscapedRow(rows[0])) + "\n" + more;
      RecordRoundTrip(strict, rows[0], more);
      LinesReadBack(strict, rows[1..]);
      AcceptableTail(strict, rows);
      assert [Shown(rows[0])] + ShownRows(rows[1..]) == ShownRows(rows);
    }
  }

  /**
   Reading the CSV of escaped fields returns exactly the header and rows, for fields with any commas, quotes
   and newlines, if and only if neither the header nor any row is empty and, for a strict reader, every field
   with a carriage return also has a comma, quote or newline.
   */
  lemma ReadsBackIff(strict: bool, headers: seq<string>, rows: seq<seq<string>>)
    ensures var all := [headers] + rows;
            ReadCsv(strict, Lines(EscapedRows(all))) == Some(all)
            <==> RowsAcceptable(strict, all) && forall row :: row in all ==> row != []
  {
    var all := [headers] + rows;
    LinesReadBack(strict, all);
    if forall row :: row in all ==> row != [] {
      NothingShownDifferently(all);
    } else {
      var i :| 0 <= i < |all| && all[i] == [];
      assert ShownRows(all)[i] != all[i];
    }
  }

  lemma NothingShownDifferently(rows: seq<seq<string>>)
    requires forall r :: r in rows ==> r != []
    ensures ShownRows(rows) == rows
  {
    forall i | 0 <= i < |rows|
      ensures ShownRows(rows)[i] == rows[i]
    {
      assert rows[i] in rows;
    }
  }

  /** Different tables without empty rows never produce the same text. */
  lemma WritingIsInjective(a: seq<seq<string>>, b: seq<seq<string>>)
    requires forall r :: r in a ==> r != []
    requires forall r :: r in b ==> r != []
    requires Lines(EscapedRows(a)) == Lines(EscapedRows(b))
    ensures a == b
  {
    LinesReadBack(false, a);
    LinesReadBack(false, b);
    NothingShownDifferently(a);
    NothingShownDifferently(b);
  }
}
