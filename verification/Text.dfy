/** Trimming and ordering of texts. */
module Text {
  import opened Lexicographic

  /** The Unicode White_Space property. */
  predicate IsSpace(c: char) {
    || '\U{0009}' <= c <= '\U{000D}' || c == '\U{0020}' || c == '\U{0085}' || c == '\U{00A0}' || c == '\U{1680}'
    || '\U{2000}' <= c <= '\U{200A}' || c == '\U{2028}' || c == '\U{2029}' || c == '\U{202F}' || c == '\U{205F}'
    || c == '\U{3000}'
  }

  function TrimStart(s: string): string {
    if s != "" && IsSpace(s[0]) then TrimStart(s[1..]) else s
  }

  function TrimEnd(s: string): string {
    if s != "" && IsSpace(s[|s| - 1]) then TrimEnd(s[..|s| - 1]) else s
  }

  function Trim(s: string): string {
    TrimEnd(TrimStart(s))
  }

  predicate AllSpaces(s: string) {
    forall i :: 0 <= i < |s| ==> IsSpace(s[i])
  }

  lemma {:induction false} TrimStartMeans(s: string)
    ensures var n := |s| - |TrimStart(s)|;
      0 <= n <= |s| && TrimStart(s) == s[n..] && AllSpaces(s[..n]) && (s[n..] != "" ==> !IsSpace(s[n]))
    decreases |s|
  {
    hide IsSpace;
    if s != "" && IsSpace(s[0]) {
      TrimStartMeans(s[1..]);
      var n := |s[1..]| - |TrimStart(s[1..])|;
      assert s[..n + 1] == [s[0]] + s[1..][..n] && s[1..][n..] == s[n + 1..];
    }
  }

  lemma {:induction false} TrimEndMeans(s: string)
    ensures var n := |TrimEnd(s)|;
      n <= |s| && TrimEnd(s) == s[..n] && AllSpaces(s[n..]) && (n > 0 ==> !IsSpace(s[n - 1]))
    decreases |s|
  {
    hide IsSpace;
    if s != "" && IsSpace(s[|s| - 1]) {
      TrimEndMeans(s[..|s| - 1]);
      var n := |TrimEnd(s[..|s| - 1])|;
      assert s[n..] == s[..|s| - 1][n..] + [s[|s| - 1]];
    }
  }

  /** Trimming takes spaces away at both ends, and all of them. */
  lemma TrimMeans(s: string) returns (lead: string, trail: string)
    ensures s == lead + Trim(s) + trail && AllSpaces(lead) && AllSpaces(trail)
    ensures Trim(s) != "" ==> !IsSpace(Trim(s)[0]) && !IsSpace(Trim(s)[|Trim(s)| - 1])
  {
    hide IsSpace;
    hide AllSpaces;
    hide TrimStart;
    hide TrimEnd;
    var inner := TrimStart(s);
    TrimStartMeans(s);
    TrimEndMeans(inner);
    var n, m := |s| - |inner|, |TrimEnd(inner)|;
    lead, trail := s[..n], inner[m..];
    assert s == lead + inner && inner == Trim(s) + trail;
  }

  lemma {:induction false} TrimStartDrops(lead: string, s: string)
    requires AllSpaces(lead)
    ensures TrimStart(lead + s) == TrimStart(s)
    decreases |lead|
  {
    if lead == "" { assert lead + s == s; } else {
      assert (lead + s)[1..] == lead[1..] + s;
      TrimStartDrops(lead[1..], s);
    }
  }

  lemma {:induction false} TrimEndDrops(s: string, trail: string)
    requires AllSpaces(trail)
    ensures TrimEnd(s + trail) == TrimEnd(s)
    decreases |trail|
  {
    if trail == "" { assert s + trail == s; } else {
      var shorter := trail[..|trail| - 1];
      assert (s + trail)[..|s + trail| - 1] == s + shorter;
      TrimEndDrops(s, shorter);
    }
  }

  /** What stands between spaces, and is not spaced itself, is what trimming leaves. */
  lemma TrimBetween(lead: string, s: string, trail: string)
    requires AllSpaces(lead) && AllSpaces(trail) && s != "" && !IsSpace(s[0]) && !IsSpace(s[|s| - 1])
    ensures Trim(lead + s + trail) == s
  {
    assert lead + s + trail == lead + (s + trail);
    TrimStartDrops(lead, s + trail);
    assert TrimStart(s + trail) == s + trail;
    TrimEndDrops(s, trail);
  }

  predicate CharLess(a: char, b: char) {
    a < b
  }

  predicate Before(a: string, b: string) {
    Less(CharLess, a, b)
  }

  lemma BeforeIsOrder(a: string, b: string, c: string)
    ensures Before(a, b) && Before(b, c) ==> Before(a, c)
    ensures !(Before(a, b) && Before(b, a)) && (Before(a, b) || Before(b, a) <==> a != b)
  {
    assert StrictTotal(CharLess);
    LessTotal(CharLess, a, b);
    if Before(a, b) && Before(b, c) { LessTransitive(CharLess, a, b, c); }
  }
}
