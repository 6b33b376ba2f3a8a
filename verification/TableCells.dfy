/** Printing and splitting rows of Markdown tables. */
module TableCells {
  import opened Text

  datatype Split = Cells(cells: seq<string>) | MalformedRow

  // ----- printing

  function Replace(s: string, c: char, with: string): string {
    if s == "" then "" else (if s[0] == c then with else [s[0]]) + Replace(s[1..], c, with)
  }

  /** The passes of `escape_derived_cell`; a line break becomes one space. */
  function EscapeCell(value: string): string {
    Replace(Replace(Replace(Replace(value, '\\', "\\\\"), '|', "\\|"), '\r', " "), '\n', " ")
  }

  function Join(cells: seq<string>): string
    requires cells != []
  {
    if |cells| == 1 then EscapeCell(cells[0]) else EscapeCell(cells[0]) + " | " + Join(cells[1..])
  }

  function PrintRow(cells: seq<string>): string {
    "| " + (if cells == [] then "" else Join(cells)) + " |"
  }

  // ----- splitting

  /** The scan over the characters of a row, from the state the loop has reached. */
  function Scan(text: string, current: string, escaped: bool, cells: seq<string>): Split {
    if text == "" then
      if escaped then MalformedRow else Cells(cells + [Trim(current)])
    else
      var c, rest := text[0], text[1..];
      if escaped then Scan(rest, current + (if c != '|' && c != '\\' then ['\\', c] else [c]), false, cells)
      else if c == '\\' then Scan(rest, current, true, cells)
      else if c == '|' then Scan(rest, "", false, cells + [Trim(current)])
      else Scan(rest, current + [c], false, cells)
  }

  function CutFirstBar(s: string): string {
    if s != "" && s[0] == '|' then s[1..] else s
  }

  /** A bar after a backslash is not an outer bar. */
  function CutLastBar(s: string): string {
    var n := |s|;
    if n > 0 && s[n - 1] == '|' && !(n > 1 && s[n - 2] == '\\') then s[..n - 1] else s
  }

  /** The row without its outer bars. */
  function Strip(line: string): string {
    CutLastBar(CutFirstBar(Trim(line)))
  }

  function SplitRow(line: string): Split {
    Scan(Strip(line), "", false, [])
  }

  /** `split_cells` */
  method SplitCells(line: string) returns (result: Split)
    ensures result == SplitRow(line)
  {
    var text := Strip(line);
    var cells: seq<string> := [];
    var current, escaped := "", false;
    for i := 0 to |text|
      invariant SplitRow(line) == Scan(text[i..], current, escaped, cells)
    {
      var c := text[i];
      assert text[i..][0] == c && text[i..][1..] == text[i + 1..];
      if escaped {
        if c != '|' && c != '\\' {
          assert current + ['\\', c] == current + ['\\'] + [c];
          current := current + ['\\'];
        }
        current := current + [c];
        escaped := false;
      } else if c == '\\' {
        escaped := true;
      } else if c == '|' {
        cells := cells + [Trim(current)];
        current := "";
      } else {
        current := current + [c];
      }
    }
    if escaped { return MalformedRow; }
    result := Cells(cells + [Trim(current)]);
  }

  // ----- round trip

  /** What a cell can carry: line breaks become spaces. */
  function Flatten(value: string): string {
    if value == "" then ""
    else [if value[0] == '\r' || value[0] == '\n' then ' ' else value[0]] + Flatten(value[1..])
  }

  function Delivered(cells: seq<string>): (r: seq<string>)
    ensures |r| == |cells| && forall i :: 0 <= i < |cells| ==> r[i] == Trim(Flatten(cells[i]))
  {
    seq(|cells|, i requires 0 <= i < |cells| => Trim(Flatten(cells[i])))
  }

  lemma {:induction false} ReplaceConcat(a: string, b: string, c: char, with: string)
    ensures Replace(a + b, c, with) == Replace(a, c, with) + Replace(b, c, with)
    decreases |a|
  {
    if a == "" {
      assert a + b == b;
    } else {
      assert (a + b)[0] == a[0] && (a + b)[1..] == a[1..] + b;
      ReplaceConcat(a[1..], b, c, with);
    }
  }

  function EscapeChar(c: char): string {
    if c == '\\' then "\\\\" else if c == '|' then "\\|" else if c == '\r' || c == '\n' then " " else [c]
  }

  lemma ReplaceOne(a: char, c: char, with: string)
    ensures Replace([a], c, with) == if a == c then with else [a]
  {
    assert Replace("", c, with) == "";
    assert with + "" == with;
  }

  lemma ReplaceTwo(a: char, b: char, c: char, with: string)
    requires a != c && b != c
    ensures Replace([a, b], c, with) == [a, b]
  {
    assert [a, b][1..] == [b];
    ReplaceOne(b, c, with);
  }

  lemma EscapeOne(c: char)
    ensures EscapeCell([c]) == EscapeChar(c)
  {
    ReplaceOne(c, '\\', "\\\\");
    ReplaceOne(c, '|', "\\|");
    ReplaceOne(c, '\r', " ");
    ReplaceOne(c, '\n', " ");
    ReplaceOne(' ', '\n', " ");
    if c == '\\' {
      ReplaceTwo('\\', '\\', '|', "\\|");
      ReplaceTwo('\\', '\\', '\r', " ");
      ReplaceTwo('\\', '\\', '\n', " ");
    } else if c == '|' {
      ReplaceTwo('\\', '|', '\r', " ");
      ReplaceTwo('\\', '|', '\n', " ");
    }
  }

  /** The passes work character by character. */
  lemma EscapeCons(value: string)
    requires value != ""
    ensures EscapeCell(value) == EscapeChar(value[0]) + EscapeCell(value[1..])
  {
    var a, b := [value[0]], value[1..];
    assert value == a + b;
    ReplaceConcat(a, b, '\\', "\\\\");
    var a1, b1 := Replace(a, '\\', "\\\\"), Replace(b, '\\', "\\\\");
    ReplaceConcat(a1, b1, '|', "\\|");
    var a2, b2 := Replace(a1, '|', "\\|"), Replace(b1, '|', "\\|");
    ReplaceConcat(a2, b2, '\r', " ");
    ReplaceConcat(Replace(a2, '\r', " "), Replace(b2, '\r', " "), '\n', " ");
    EscapeOne(value[0]);
    hide Replace;
  }

  /** Scanning a printed cell collects its flattened text and ends outside an escape. */
  lemma {:induction false} ScanCell(value: string, rest: string, current: string, cells: seq<string>)
    ensures Scan(EscapeCell(value) + rest, current, false, cells) == Scan(rest, current + Flatten(value), false, cells)
    decreases |value|
  {
    hide Scan;
    if value == "" {
      assert EscapeCell("") == "";
      assert "" + rest == rest && current + "" == current;
    } else {
      hide EscapeCell;
      hide EscapeChar;
      var c, tail := value[0], value[1..];
      var more := EscapeCell(tail) + rest;
      EscapeCons(value);
      Associate(EscapeChar(c), EscapeCell(tail), rest);
      var f := if c == '\r' || c == '\n' then ' ' else c;
      ScanChar(c, more, current, cells);
      ScanCell(tail, rest, current + [f], cells);
      Associate(current, [f], Flatten(tail));
    }
  }

  lemma Associate(a: string, b: string, c: string)
    ensures (a + b) + c == a + (b + c)
  {
  }

  lemma ScanChar(c: char, more: string, current: string, cells: seq<string>)
    ensures Scan(EscapeChar(c) + more, current, false, cells)
      == Scan(more, current + [if c == '\r' || c == '\n' then ' ' else c], false, cells)
  {
    var text := EscapeChar(c) + more;
    if c == '\\' || c == '|' {
      assert text[1..] == [c] + more && text[1..][1..] == more;
    } else {
      assert text[1..] == more;
    }
  }

  lemma TrimPadded(s: string)
    ensures Trim(" " + s + " ") == Trim(s)
  {
    var t := " " + s + " ";
    assert t[1..] == s + " ";
    assert TrimStart(t) == TrimStart(s + " ");
    TrimStartBeforeSpace(s);
    assert (TrimStart(s) + " ")[..|TrimStart(s)|] == TrimStart(s);
  }

  lemma {:induction false} TrimStartBeforeSpace(s: string)
    ensures TrimEnd(TrimStart(s + " ")) == TrimEnd(TrimStart(s))
    decreases |s|
  {
    var t := s + " ";
    if s == "" {
      assert t == " " && t[1..] == "";
    } else if IsSpace(s[0]) {
      assert t[1..] == s[1..] + " ";
      TrimStartBeforeSpace(s[1..]);
    } else {
      assert t[..|t| - 1] == s;
    }
  }

  /** Scanning the cells of a row, each with a space on both sides. */
  lemma {:induction false} ScanCells(values: seq<string>, done: seq<string>)
    requires values != []
    ensures Scan(Join(values) + " ", " ", false, done) == Cells(done + Delivered(values))
    decreases |values|
  {
    var v := values[0];
    if |values| == 1 {
      ScanCell(v, " ", " ", done);
      var current := " " + Flatten(v);
      assert Scan(" ", current, false, done) == Scan("", current + " ", false, done);
      TrimPadded(Flatten(v));
      assert Delivered(values) == [Trim(Flatten(v))];
    } else {
      var tail := Join(values[1..]) + " ";
      assert Join(values) + " " == EscapeCell(v) + (" | " + tail);
      ScanCell(v, " | " + tail, " ", done);
      ScanBar(tail, " " + Flatten(v), done);
      TrimPadded(Flatten(v));
      ScanCells(values[1..], done + [Trim(Flatten(v))]);
      DeliveredCons(values);
      assert done + [Trim(Flatten(v))] + Delivered(values[1..]) == done + Delivered(values);
      hide Scan;
      hide Trim;
    }
  }

  lemma DeliveredCons(values: seq<string>)
    requires values != []
    ensures Delivered(values) == [Trim(Flatten(values[0]))] + Delivered(values[1..])
  {
    hide Trim;
    hide Flatten;
  }

  lemma ScanPlain(c: char, rest: string, current: string, cells: seq<string>)
    requires c != '\\' && c != '|'
    ensures Scan([c] + rest, current, false, cells) == Scan(rest, current + [c], false, cells)
  {
    assert ([c] + rest)[1..] == rest;
  }

  lemma ScanBar(tail: string, current: string, done: seq<string>)
    ensures Scan(" | " + tail, current, false, done) == Scan(tail, " ", false, done + [Trim(current + " ")])
  {
    var bar := "| " + tail;
    assert " | " + tail == [' '] + bar;
    ScanPlain(' ', bar, current, done);
    assert bar[1..] == [' '] + tail;
    ScanPlain(' ', tail, "", done + [Trim(current + " ")]);
    assert "" + [' '] == " ";
  }

  /** A printed row starts and ends with an outer bar. */
  lemma StripPrinted(inner: string)
    ensures Strip("| " + inner + " |") == " " + inner + " "
  {
    var row := "| " + inner + " |";
    assert !IsSpace('|');
    assert TrimStart(row) == row && TrimEnd(row) == row;
    var text := row[1..];
    assert text == " " + inner + " |" && text[|text| - 2] == ' ';
    assert text[..|text| - 1] == " " + inner + " ";
  }

  /** Any non-empty list of texts comes back from its printed row, flattened and trimmed. */
  lemma RowRoundTrip(cells: seq<string>)
    requires cells != []
    ensures SplitRow(PrintRow(cells)) == Cells(Delivered(cells))
  {
    StripPrinted(Join(cells));
    var inner := Join(cells) + " ";
    assert " " + Join(cells) + " " == " " + inner;
    assert (" " + inner)[1..] == inner && "" + " " == " ";
    assert Scan(" " + inner, "", false, []) == Scan(inner, " ", false, []);
    ScanCells(cells, []);
    assert [] + Delivered(cells) == Delivered(cells);
  }

  /** The condition is needed: the row of no cells reads as one empty cell. */
  lemma EmptyRowReadsAsOneCell()
    ensures SplitRow(PrintRow([])) == Cells([""])
  {
    StripPrinted("");
    assert "| " + "" + " |" == PrintRow([]);
    assert " " + "" + " " == [' '] + " " && " " == [' '] + "";
    ScanPlain(' ', " ", "", []);
    ScanPlain(' ', "", "" + [' '], []);
    assert "" + [' '] + [' '] == " " + "" + " ";
    TrimPadded("");
  }

  /** Number of cells and success for every list: the row splits into the same number of cells iff there is a cell. */
  lemma SameCountIff(cells: seq<string>)
    ensures SplitRow(PrintRow(cells)).Cells?
    ensures |SplitRow(PrintRow(cells)).cells| == |cells| <==> cells != []
  {
    if cells == [] { EmptyRowReadsAsOneCell(); } else { RowRoundTrip(cells); }
  }
}
