/** What splitting makes of any row of a table, stated by the backslashes before each bar. */
module TableRows {
  import opened Text
  import opened TableCells

  // ----- escapes, seen from behind

  /** How many backslashes a text ends with. */
  function Backslashes(s: string): nat {
    if s != "" && s[|s| - 1] == '\\' then 1 + Backslashes(s[..|s| - 1]) else 0
  }

  /** An odd number of them leaves the last one without a character to escape. */
  ghost predicate Dangling(s: string) {
    Backslashes(s) % 2 == 1
  }

  /** A bar that is not escaped. */
  ghost predicate SeparatesAt(s: string, i: nat)
    requires i < |s|
  {
    s[i] == '|' && !Dangling(s[..i])
  }

  ghost predicate OneCell(s: string) {
    !Dangling(s) && forall i :: 0 <= i < |s| ==> !SeparatesAt(s, i)
  }

  /** A backslash goes only from in front of a bar or another backslash. */
  function Unescape(s: string): string {
    if s == "" then ""
    else if s[0] == '\\' && |s| > 1 then
      (if s[1] == '|' || s[1] == '\\' then [s[1]] else ['\\', s[1]]) + Unescape(s[2..])
    else [s[0]] + Unescape(s[1..])
  }

  function Joined(raws: seq<string>): string
    requires raws != []
  {
    if |raws| == 1 then raws[0] else raws[0] + "|" + Joined(raws[1..])
  }

  function Texts(raws: seq<string>): seq<string> {
    seq(|raws|, i requires 0 <= i < |raws| => Trim(Unescape(raws[i])))
  }

  // ----- adding a character at the end

  lemma {:induction false} BackslashesAfter(s: string, c: char)
    ensures Backslashes(s + [c]) == if c == '\\' then 1 + Backslashes(s) else 0
  {
    assert (s + [c])[..|s|] == s;
  }

  /** Unescaping up to a character that is not escaped. */
  lemma {:induction false} UnescapeConcat(s: string, t: string)
    requires !Dangling(s)
    ensures Unescape(s + t) == Unescape(s) + Unescape(t)
    decreases |s|
  {
    if s == "" {
      assert s + t == t;
    } else if s[0] == '\\' && |s| > 1 {
      DanglingAfterPair(s);
      assert (s + t)[2..] == s[2..] + t;
      UnescapeConcat(s[2..], t);
    } else {
      DanglingTail(s);
      assert (s + t)[1..] == s[1..] + t;
      UnescapeConcat(s[1..], t);
    }
  }

  lemma {:induction false} DanglingTail(s: string)
    requires s != "" && s[0] != '\\'
    ensures Backslashes(s) == Backslashes(s[1..])
    decreases |s|
  {
    if |s| > 1 && s[|s| - 1] == '\\' {
      var front := s[..|s| - 1];
      assert s[1..][..|s| - 2] == front[1..];
      DanglingTail(front);
    }
  }

  lemma {:induction false} DanglingAfterPair(s: string)
    requires |s| > 1 && s[0] == '\\'
    ensures Dangling(s) <==> Dangling(s[2..])
    decreases |s|
  {
    if |s| == 2 {
      assert s[..1] == "\\" && s[..0] == "" && s[2..] == "";
    } else if s[|s| - 1] == '\\' {
      var front := s[..|s| - 1];
      assert s[2..][..|s| - 3] == front[2..];
      DanglingAfterPair(front);
    }
  }

  // ----- scanning

  ghost predicate NoSeparator(s: string) {
    forall i :: 0 <= i < |s| ==> !SeparatesAt(s, i)
  }

  /** What the scanner has collected of a raw cell: its text without a last backslash that still waits. */
  function Collected(raw: string): string {
    if Backslashes(raw) % 2 == 1 then Unescape(raw[..|raw| - 1]) else Unescape(raw)
  }

  lemma NoSeparatorAfter(raw: string, c: char)
    requires NoSeparator(raw) && (c == '|' ==> Dangling(raw))
    ensures NoSeparator(raw + [c])
  {
    hide Dangling;
    var next := raw + [c];
    forall i | 0 <= i < |next| ensures !SeparatesAt(next, i) {
      if i < |raw| {
        assert !SeparatesAt(raw, i) && next[..i] == raw[..i];
      } else {
        assert next[..i] == raw;
      }
    }
  }

  lemma UnescapeShort(c: char)
    ensures Unescape([c]) == [c]
    ensures Unescape(['\\', c]) == if c == '|' || c == '\\' then [c] else ['\\', c]
  {
    assert [c][1..] == "" && ['\\', c][2..] == "";
  }

  lemma CollectOne(raw: string, c: char)
    requires NoSeparator(raw) && (c == '|' ==> Dangling(raw))
    ensures Collected(raw + [c]) ==
      if Dangling(raw) then Collected(raw) + (if c == '|' || c == '\\' then [c] else ['\\', c])
      else if c == '\\' then Collected(raw) else Collected(raw) + [c]
  {
    hide Unescape;
    hide NoSeparator;
    var next := raw + [c];
    BackslashesAfter(raw, c);
    UnescapeShort(c);
    assert next[..|raw|] == raw;
    if Dangling(raw) {
      var front := raw[..|raw| - 1];
      assert next == front + ['\\', c];
      UnescapeConcat(front, ['\\', c]);
    } else if c != '\\' {
      UnescapeConcat(raw, [c]);
    }
  }

  /** Cells as the row has them, of which only the last may dangle. */
  ghost predicate Raw(raws: seq<string>) {
    && raws != [] && (forall i :: 0 <= i < |raws| ==> NoSeparator(raws[i]))
    && forall i :: 0 <= i < |raws| - 1 ==> !Dangling(raws[i])
  }

  lemma ScanAtBar(more: string, raw: string, cells: seq<string>, tail: seq<string>) returns (raws: seq<string>)
    requires !Dangling(raw) && NoSeparator(raw) && Raw(tail) && Joined(tail) == more
    ensures raws == [raw] + tail && Raw(raws) && Joined(raws) == raw + (['|'] + more)
    ensures cells + [Trim(Unescape(raw))] + Texts(tail) == cells + Texts(raws)
    ensures raws[|raws| - 1] == tail[|tail| - 1]
  {
    hide Trim;
    hide Unescape;
    hide NoSeparator;
    raws := [raw] + tail;
    assert raws[1..] == tail && raw + (['|'] + more) == raw + "|" + more;
    assert Texts(raws) == [Trim(Unescape(raw))] + Texts(tail);
    assert forall i :: 0 < i < |raws| ==> raws[i] == tail[i - 1];
  }

  lemma ScanEnd(raw: string, cells: seq<string>)
    requires NoSeparator(raw)
    ensures Raw([raw]) && Joined([raw]) == raw
    ensures Scan("", Collected(raw), Dangling(raw), cells) ==
      if Dangling(raw) then MalformedRow else Cells(cells + Texts([raw]))
  {
    hide Trim;
    hide Unescape;
    hide NoSeparator;
    assert Texts([raw]) == [Trim(Unescape(raw))];
  }

  lemma ScanSeparator(more: string, raw: string, cells: seq<string>)
    requires !Dangling(raw)
    ensures NoSeparator("")
    ensures Scan(['|'] + more, Collected(raw), Dangling(raw), cells) ==
      Scan(more, Collected(""), Dangling(""), cells + [Trim(Unescape(raw))])
  {
    EmptyText();
    assert Collected("") == "" && !Dangling("");
    hide Trim;
    hide Unescape;
    assert (['|'] + more)[1..] == more;
  }

  lemma ScanOther(c: char, more: string, raw: string, cells: seq<string>)
    requires NoSeparator(raw) && (c == '|' ==> Dangling(raw))
    ensures NoSeparator(raw + [c])
    ensures Scan([c] + more, Collected(raw), Dangling(raw), cells) ==
      Scan(more, Collected(raw + [c]), Dangling(raw + [c]), cells)
  {
    NoSeparatorAfter(raw, c);
    CollectOne(raw, c);
    BackslashesAfter(raw, c);
    hide NoSeparator;
    hide Collected;
    hide Trim;
    assert ([c] + more)[1..] == more;
  }

  lemma {:induction false} ScanMeans(rest: string, raw: string, cells: seq<string>) returns (raws: seq<string>)
    requires NoSeparator(raw)
    ensures Raw(raws) && Joined(raws) == raw + rest
    ensures Scan(rest, Collected(raw), Dangling(raw), cells) ==
      if Dangling(raws[|raws| - 1]) then MalformedRow else Cells(cells + Texts(raws))
    decreases |rest|
  {
    hide Scan;
    hide Collected;
    hide Dangling;
    hide Joined;
    hide Texts;
    hide NoSeparator;
    if rest == "" {
      raws := [raw];
      ScanEnd(raw, cells);
      assert raw + rest == raw;
    } else {
      var c, more := rest[0], rest[1..];
      assert rest == [c] + more;
      if c == '|' && !Dangling(raw) {
        ScanSeparator(more, raw, cells);
        var tail := ScanMeans(more, "", cells + [Trim(Unescape(raw))]);
        assert "" + more == more;
        raws := ScanAtBar(more, raw, cells, tail);
      } else {
        ScanOther(c, more, raw, cells);
        raws := ScanMeans(more, raw + [c], cells);
        assert raw + rest == (raw + [c]) + more;
      }
    }
  }

  lemma EmptyText()
    ensures Unescape("") == ""
  {
  }

  /** The last raw cell dangles exactly if the whole row does. */
  lemma {:induction false} LastDangles(raws: seq<string>)
    requires raws != []
    ensures Backslashes(Joined(raws)) == Backslashes(raws[|raws| - 1])
    decreases |raws|
  {
    if |raws| > 1 {
      LastDangles(raws[1..]);
      BackslashesBehindBar(raws[0], Joined(raws[1..]));
    }
  }

  lemma {:induction false} BackslashesBehindBar(s: string, t: string)
    ensures Backslashes(s + "|" + t) == Backslashes(t)
    decreases |t|
  {
    var all := s + "|" + t;
    if t != "" {
      BackslashesBehindBar(s, t[..|t| - 1]);
      assert all[..|all| - 1] == s + "|" + t[..|t| - 1];
    }
  }

  // ----- main results

  /**
   Any row: without its outer bars it is malformed exactly if it ends with an odd number of backslashes; otherwise it is
   cut at the bars before which the number of backslashes is even, and each cell is unescaped and trimmed.
   */
  lemma SplitMeans(line: string) returns (raws: seq<string>)
    ensures Raw(raws) && Joined(raws) == Strip(line)
    ensures SplitRow(line) == if Dangling(Strip(line)) then MalformedRow else Cells(Texts(raws))
  {
    EmptyText();
    assert Collected("") == "" && !Dangling("") && NoSeparator("");
    hide Strip;
    hide Scan;
    hide Texts;
    hide Raw;
    hide Collected;
    hide NoSeparator;
    hide Joined;
    var text := Strip(line);
    raws := ScanMeans(text, "", []);
    assert "" + text == text && [] + Texts(raws) == Texts(raws);
    LastDangles(raws);
    hide Backslashes;
  }

  predicate EndsWith(s: string, t: string) {
    |t| <= |s| && s[|s| - |t|..] == t
  }

  lemma LastBar(s: string) returns (trail: string)
    ensures trail in {"", "|"} && s == CutLastBar(s) + trail
    ensures trail == "|" <==> EndsWith(s, "|") && !EndsWith(s, "\\|")
  {
    var n := |s|;
    trail := if CutLastBar(s) == s then "" else "|";
    assert n > 0 ==> s[n - 1..] == [s[n - 1]];
    assert n > 1 ==> s[n - 2..] == [s[n - 2], s[n - 1]];
  }

  /**
   The outer bars: one in front, and one behind unless a backslash stands before it, even if that one is escaped itself.
   */
  lemma StripMeans(line: string) returns (lead: string, trail: string)
    ensures lead in {"", "|"} && trail in {"", "|"} && Trim(line) == lead + Strip(line) + trail
    ensures lead == "|" <==> Trim(line) != "" && Trim(line)[0] == '|'
    ensures trail == "|" <==>
      EndsWith(Trim(line)[|lead|..], "|") && !EndsWith(Trim(line)[|lead|..], "\\|")
  {
    hide Trim;
    hide EndsWith;
    hide CutLastBar;
    var trimmed := Trim(line);
    lead := if trimmed != "" && trimmed[0] == '|' then "|" else "";
    var text := CutFirstBar(trimmed);
    assert text == trimmed[|lead|..] && trimmed == lead + text;
    trail := LastBar(text);
  }

  /** So a last cell that ends with an escaped backslash is followed by an empty one, unless a space parts it. */
  lemma EscapedBackslashBeforeTheLastBar()
    ensures SplitRow("|a\\\\|") == Cells(["a\\", ""])
    ensures SplitRow("|a\\\\ |") == Cells(["a\\"])
  {
    TrimRow("|a\\\\|");
    TrimRow("|a\\\\ |");
    TrimRow("a\\");
    TrimRow("");
    TrimStartBeforeSpace("a\\");
    assert Trim("a\\" + " ") == "a\\";
    hide Trim;
    assert Strip("|a\\\\|") == "a\\\\" + "|" && Strip("|a\\\\ |") == "a\\\\" + " ";
    hide Strip;
    ScanPair("|");
    ScanPair(" ");
    assert "|"[1..] == "" && " "[1..] == "" && "a\\" + [' '] == "a\\" + " ";
    assert Scan("|", "a\\", false, []) == Scan("", "", false, [Trim("a\\")]);
    assert Scan(" ", "a\\", false, []) == Scan("", "a\\" + " ", false, []);
  }

  lemma TrimRow(s: string)
    requires s == "" || (!IsSpace(s[0]) && !IsSpace(s[|s| - 1]))
    ensures Trim(s) == s
  {
  }

  lemma ScanPair(rest: string)
    ensures Scan("a\\\\" + rest, "", false, []) == Scan(rest, "a\\", false, [])
  {
    var more := EscapeChar('\\') + rest;
    assert "a\\\\" + rest == ['a'] + more;
    ScanPlain('a', more, "", []);
    ScanChar('\\', rest, "a", []);
    assert "" + ['a'] == "a" && "a" + ['\\'] == "a\\";
    hide Scan;
  }
}
