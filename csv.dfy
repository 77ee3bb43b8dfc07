/** The CSV text built by the BMI page's export: every cell wrapped in double
    quotes with each quote inside doubled (section 2, rule 7 of RFC 4180),
    cells separated by commas and records by line feeds. A reader for that
    text is defined beside it, and reading the export gives back the cells. */
module Csv {
  import opened Wrappers
  import opened Strings

  /** `String(c).replace(/"/g, '""')`. */
  function Escape(c: string): (r: string)
    ensures |r| >= |c|
    ensures '"' !in c ==> r == c
  {
    if c == [] then []
    else (if c[0] == '"' then "\"\"" else [c[0]]) + Escape(c[1..])
  }

  /** One cell of the export. */
  function Quote(c: string): string
  {
    "\"" + Escape(c) + "\""
  }

  function QuoteAll(cells: seq<string>): (r: seq<string>)
    ensures |r| == |cells| && forall k :: 0 <= k < |r| ==> r[k] == Quote(cells[k])
  {
    seq(|cells|, k requires 0 <= k < |cells| => Quote(cells[k]))
  }

  /** `r.map(...).join(',')`: one record. */
  function Line(cells: seq<string>): string
  {
    Join(QuoteAll(cells), ",")
  }

  function Lines(rows: seq<seq<string>>): (r: seq<string>)
    ensures |r| == |rows| && forall k :: 0 <= k < |r| ==> r[k] == Line(rows[k])
  {
    seq(|rows|, k requires 0 <= k < |rows| => Line(rows[k]))
  }

  /** `rows.map(...).join('\n')`: the whole export. */
  function Document(rows: seq<seq<string>>): string
  {
    Join(Lines(rows), "\n")
  }

  // ------------------------------------------------------------- reading

  /** The text of a quoted cell, `s` starting just after its opening quote:
      a doubled quote stands for one quote and a single quote closes the
      cell. Gives the cell and what follows the closing quote. */
  function Unquote(s: string): (r: Option<(string, string)>)
    ensures r.Some? ==> |r.value.1| < |s|
    decreases |s|
  {
    if s == [] then None
    else if s[0] == '"' then
      if |s| >= 2 && s[1] == '"' then
        match Unquote(s[2..])
        case None => None
        case Some((c, rest)) => Some(("\"" + c, rest))
      else Some(("", s[1..]))
    else
      match Unquote(s[1..])
      case None => None
      case Some((c, rest)) => Some(([s[0]] + c, rest))
  }

  /** The quoted cells of one record, separated by commas, and the text after
      the last of them. */
  function ParseCells(s: string): (r: Option<(seq<string>, string)>)
    ensures r.Some? ==> |r.value.1| < |s|
    decreases |s|
  {
    if s == [] || s[0] != '"' then None
    else
      match Unquote(s[1..])
      case None => None
      case Some((c, rest)) =>
        if rest != [] && rest[0] == ',' then
          match ParseCells(rest[1..])
          case None => None
          case Some((cs, tail)) => Some(([c] + cs, tail))
        else Some(([c], rest))
  }

  /** Records separated by line feeds, up to the end of the text. */
  function ParseDocument(s: string): (r: Option<seq<seq<string>>>)
    decreases |s|
  {
    match ParseCells(s)
    case None => None
    case Some((row, rest)) =>
      if rest == [] then Some([row])
      else if rest[0] == '\n' then
        match ParseDocument(rest[1..])
        case None => None
        case Some(rows) => Some([row] + rows)
      else None
  }

  // ---------------------------------------------------------- round trip

  lemma {:induction false} UnquoteEscaped(c: string, rest: string)
    requires rest == [] || rest[0] != '"'
    ensures Unquote(Escape(c) + "\"" + rest) == Some((c, rest))
  {
    if c == [] {
      var s := Escape(c) + "\"" + rest;
      assert s == "\"" + rest;
      assert s[1..] == rest;
    } else {
      var tail := Escape(c[1..]) + "\"" + rest;
      UnquoteEscaped(c[1..], rest);
      assert Escape(c) + "\"" + rest == (if c[0] == '"' then "\"\"" else [c[0]]) + tail;
      if c[0] == '"' {
        UnquoteDoubled(tail);
        assert "\"" + c[1..] == c;
      } else {
        UnquoteOther(c[0], tail);
        assert [c[0]] + c[1..] == c;
      }
    }
  }

  lemma UnquoteDoubled(tail: string)
    ensures Unquote("\"\"" + tail) == match Unquote(tail)
      case None => None
      case Some((c, rest)) => Some(("\"" + c, rest))
  {
    assert ("\"\"" + tail)[2..] == tail;
  }

  lemma UnquoteOther(x: char, tail: string)
    requires x != '"'
    ensures Unquote([x] + tail) == match Unquote(tail)
      case None => None
      case Some((c, rest)) => Some(([x] + c, rest))
  {
    assert ([x] + tail)[1..] == tail;
  }

  lemma QuotedCell(c: string, rest: string)
    requires rest == [] || rest[0] != '"'
    ensures var s := Quote(c) + rest; s != [] && s[0] == '"' && Unquote(s[1..]) == Some((c, rest))
  {
    var s := Quote(c) + rest;
    assert s == "\"" + (Escape(c) + "\"" + rest);
    assert s[1..] == Escape(c) + "\"" + rest;
    UnquoteEscaped(c, rest);
  }

  lemma {:induction false} ParseLine(cells: seq<string>, rest: string)
    requires cells != []
    requires rest == [] || rest[0] == '\n'
    ensures ParseCells(Line(cells) + rest) == Some((cells, rest))
  {
    if |cells| == 1 {
      assert Line(cells) == Quote(cells[0]);
      QuotedCell(cells[0], rest);
      assert cells == [cells[0]];
    } else {
      var more := Line(cells[1..]) + rest;
      assert QuoteAll(cells)[1..] == QuoteAll(cells[1..]);
      assert Line(cells) == Quote(cells[0]) + "," + Line(cells[1..]);
      assert Line(cells) + rest == Quote(cells[0]) + ("," + more);
      QuotedCell(cells[0], "," + more);
      assert ("," + more)[1..] == more;
      ParseLine(cells[1..], rest);
      assert cells == [cells[0]] + cells[1..];
    }
  }

  /** Reading an export gives back exactly the records that were written,
      provided none of them is empty. */
  lemma {:induction false} ParseExport(rows: seq<seq<string>>)
    requires rows != []
    requires forall k :: 0 <= k < |rows| ==> rows[k] != []
    ensures ParseDocument(Document(rows)) == Some(rows)
  {
    if |rows| == 1 {
      assert Document(rows) == Line(rows[0]);
      ParseLine(rows[0], []);
      assert Line(rows[0]) + [] == Line(rows[0]);
      assert rows == [rows[0]];
    } else {
      var more := Document(rows[1..]);
      assert Lines(rows)[1..] == Lines(rows[1..]);
      assert Document(rows) == Line(rows[0]) + ("\n" + more);
      ParseLine(rows[0], "\n" + more);
      assert ("\n" + more)[1..] == more;
      ParseExport(rows[1..]);
      assert rows == [rows[0]] + rows[1..];
    }
  }
}
