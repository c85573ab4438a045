/** CSV text (RFC 4180, rows ended by a line feed): the web layer's writer and a reader for the format. */
module Csv {
  import opened Basics

  // ----- writing, as `csv_row` and its `esc` do ---------------------------------

  predicate NeedsQuotes(s: string) {
    ',' in s || '"' in s || '\n' in s || '\r' in s
  }

  /** `s` with every quote doubled, the closing quote, and then `rest`. */
  function Doubled(s: string, rest: string): string {
    if s == "" then "\"" + rest
    else if s[0] == '"' then "\"\"" + Doubled(s[1..], rest)
    else [s[0]] + Doubled(s[1..], rest)
  }

  function WriteField(s: string, rest: string): string {
    if NeedsQuotes(s) then "\"" + Doubled(s, rest) else s + rest
  }

  /** A field is quoted exactly where it holds a comma, a quote or the end of a line. */
  lemma QuotedExactly(s: string, rest: string)
    ensures WriteField(s, rest)
         == if exists i :: 0 <= i < |s| && s[i] in [',', '"', '\n', '\r'] then "\"" + Doubled(s, rest) else s + rest
  {
    hide Doubled;
    if i :| 0 <= i < |s| && s[i] in [',', '"', '\n', '\r'] {
      assert NeedsQuotes(s);
    }
  }

  /** The row's fields between commas and a line feed, and then `rest`. */
  function WriteRow(fields: seq<string>, rest: string): string {
    if fields == [] then "\n" + rest
    else WriteField(fields[0], if |fields| == 1 then "\n" + rest else "," + WriteRow(fields[1..], rest))
  }

  function WriteRows(rows: seq<seq<string>>, rest: string): string {
    if rows == [] then rest else WriteRow(rows[0], WriteRows(rows[1..], rest))
  }

  // ----- reading (RFC 4180, section 2) ------------------------------------------

  datatype Cell = Bad | Cell(text: string, rest: string)

  /** The rest of a quoted field, after its opening quote. */
  function ReadQuoted(s: string): (c: Cell)
    ensures c.Cell? ==> |c.rest| < |s|
  {
    if s == "" then Bad
    else if s[0] != '"' then
      var c := ReadQuoted(s[1..]);
      if c.Bad? then Bad else Cell([s[0]] + c.text, c.rest)
    else if |s| > 1 && s[1] == '"' then
      var c := ReadQuoted(s[2..]);
      if c.Bad? then Bad else Cell("\"" + c.text, c.rest)
    else Cell("", s[1..])
  }

  /** An unquoted field runs to a comma or line feed and holds no quote or carriage return. */
  function ReadPlain(s: string): (c: Cell)
    ensures c.Cell? ==> |c.rest| <= |s|
  {
    if s == "" || s[0] == ',' || s[0] == '\n' then Cell("", s)
    else if s[0] == '"' || s[0] == '\r' then Bad
    else
      var c := ReadPlain(s[1..]);
      if c.Bad? then Bad else Cell([s[0]] + c.text, c.rest)
  }

  function ReadField(s: string): (c: Cell)
    ensures c.Cell? ==> |c.rest| <= |s|
  {
    if s != "" && s[0] == '"' then ReadQuoted(s[1..]) else ReadPlain(s)
  }

  datatype Row = BadRow | Row(fields: seq<string>, rest: string)

  function ReadRow(s: string): (r: Row)
    requires s != ""
    ensures r.Row? ==> |r.rest| < |s|
    decreases |s|
  {
    var c := ReadField(s);
    if c.Bad? || c.rest == "" then BadRow
    else if c.rest[0] == '\n' then Row([c.text], c.rest[1..])
    else if c.rest[0] == ',' && |c.rest| > 1 then
      var r := ReadRow(c.rest[1..]);
      if r.BadRow? then BadRow else Row([c.text] + r.fields, r.rest)
    else BadRow
  }

  function ReadRows(s: string): Option<seq<seq<string>>>
    decreases |s|
  {
    if s == "" then Some([])
    else
      var r := ReadRow(s);
      if r.BadRow? then None
      else
        var more := ReadRows(r.rest);
        if more.None? then None else Some([r.fields] + more.value)
  }

  // ----- reading inverts writing --------------------------------------------------

  lemma {:induction false} QuotedRound(s: string, rest: string)
    requires rest != "" && rest[0] != '"'
    ensures ReadQuoted(Doubled(s, rest)) == Cell(s, rest)
  {
    if s != "" {
      QuotedRound(s[1..], rest);
      assert [s[0]] + s[1..] == s;
      var d := Doubled(s[1..], rest);
      if s[0] == '"' {
        assert ("\"\"" + d)[2..] == d;
      } else {
        assert ([s[0]] + d)[1..] == d;
      }
    }
  }

  lemma {:induction false} PlainRound(s: string, rest: string)
    requires !NeedsQuotes(s)
    requires rest != "" && (rest[0] == ',' || rest[0] == '\n')
    ensures ReadPlain(s + rest) == Cell(s, rest)
  {
    if s == "" {
      assert s + rest == rest;
    } else {
      PlainRound(s[1..], rest);
      assert (s + rest)[1..] == s[1..] + rest;
      assert (s + rest)[0] == s[0] && s[0] in s;
      assert [s[0]] + s[1..] == s;
    }
  }

  lemma FieldRound(s: string, rest: string)
    requires rest != "" && (rest[0] == ',' || rest[0] == '\n')
    ensures ReadField(WriteField(s, rest)) == Cell(s, rest)
    ensures WriteField(s, rest) != ""
  {
    if NeedsQuotes(s) {
      QuotedRound(s, rest);
    } else {
      PlainRound(s, rest);
      assert (s + rest)[0] == if s == "" then rest[0] else s[0];
      assert s != "" ==> s[0] in s;
    }
  }

  lemma {:induction false} RowRound(fields: seq<string>, rest: string)
    requires fields != []
    ensures WriteRow(fields, rest) != ""
    ensures ReadRow(WriteRow(fields, rest)) == Row(fields, rest)
  {
    if |fields| == 1 {
      FieldRound(fields[0], "\n" + rest);
      assert fields == [fields[0]];
    } else {
      var more := WriteRow(fields[1..], rest);
      RowRound(fields[1..], rest);
      FieldRound(fields[0], "," + more);
      assert ("," + more)[1..] == more;
      assert fields == [fields[0]] + fields[1..];
    }
  }

  /** Whatever the cells hold (commas, quotes, line breaks), the reader gets exactly the rows back. */
  lemma {:induction false} RowsRound(rows: seq<seq<string>>)
    requires forall i | 0 <= i < |rows| :: rows[i] != []
    ensures ReadRows(WriteRows(rows, "")) == Some(rows)
  {
    if rows != [] {
      assert rows[0] != [];
      RowsRound(rows[1..]);
      RowRound(rows[0], WriteRows(rows[1..], ""));
      assert rows == [rows[0]] + rows[1..];
    }
  }

  // ----- appending row texts one after the other -----------------------------------

  lemma {:induction false} DoubledThen(s: string, rest: string, more: string)
    ensures Doubled(s, rest) + more == Doubled(s, rest + more)
  {
    if s == "" {
      assert "\"" + rest + more == "\"" + (rest + more);
    } else {
      DoubledThen(s[1..], rest, more);
      var d := Doubled(s[1..], rest);
      assert "\"\"" + d + more == "\"\"" + (d + more);
      assert [s[0]] + d + more == [s[0]] + (d + more);
    }
  }

  lemma FieldThen(s: string, rest: string, more: string)
    ensures WriteField(s, rest) + more == WriteField(s, rest + more)
  {
    DoubledThen(s, rest, more);
    var d := Doubled(s, rest);
    assert "\"" + d + more == "\"" + (d + more);
    assert s + rest + more == s + (rest + more);
  }

  lemma {:induction false} RowThen(fields: seq<string>, rest: string, more: string)
    ensures WriteRow(fields, rest) + more == WriteRow(fields, rest + more)
  {
    assert "\n" + rest + more == "\n" + (rest + more);
    if |fields| == 1 {
      FieldThen(fields[0], "\n" + rest, more);
    } else if fields != [] {
      RowThen(fields[1..], rest, more);
      var w := WriteRow(fields[1..], rest);
      assert "," + w + more == "," + (w + more);
      FieldThen(fields[0], "," + w, more);
    }
  }

  lemma OneRow(row: seq<string>)
    ensures WriteRows([row], "") == WriteRow(row, "")
  {
    assert [row][1..] == [];
  }

  lemma {:induction false} RowsSnoc(rows: seq<seq<string>>, row: seq<string>)
    ensures WriteRows(rows + [row], "") == WriteRows(rows, "") + WriteRow(row, "")
  {
    if rows == [] {
      OneRow(row);
      assert rows + [row] == [row] && "" + WriteRow(row, "") == WriteRow(row, "");
    } else {
      RowsSnoc(rows[1..], row);
      assert (rows + [row])[1..] == rows[1..] + [row];
      RowThen(rows[0], WriteRows(rows[1..], ""), WriteRow(row, ""));
    }
  }
}
