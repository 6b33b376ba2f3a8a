/** Compact JSON text, and the plain text that a packet is measured by. */
module JsonText {
  import opened Json
  import opened SelfCounting

  const DIGITS := "0123456789abcdef"

  function Decimal(n: nat): string {
    if n < 10 then [DIGITS[n]] else Decimal(n / 10) + [DIGITS[n % 10]]
  }

  /** Two-character escapes where JSON has them, the code in four digits for the other control characters. */
  function Escaped(c: char): string {
    if c == '\"' then "\\\""
    else if c == '\\' then "\\\\"
    else if c == '\U{0008}' then "\\b"
    else if c == '\U{0009}' then "\\t"
    else if c == '\U{000A}' then "\\n"
    else if c == '\U{000C}' then "\\f"
    else if c == '\U{000D}' then "\\r"
    else if c < '\U{0020}' then "\\u00" + [DIGITS[(c as int) / 16], DIGITS[(c as int) % 16]]
    else [c]
  }

  function EscapedText(s: string): string {
    if s == "" then "" else Escaped(s[0]) + EscapedText(s[1..])
  }

  function Quoted(s: string): string {
    "\"" + EscapedText(s) + "\""
  }

  function Encode(v: Value): string
    decreases v, 0
  {
    match v
    case Null => "null"
    case Bool(truth) => if truth then "true" else "false"
    case Natural(n) => Decimal(n)
    case Negative(n) => "-" + Decimal(n)
    case Fraction(text) => text
    case Text(text) => Quoted(text)
    case Array(items) => "[" + EncodeItems(items) + "]"
    case Object(fields) => "{" + EncodeFields(fields) + "}"
  }

  function EncodeItems(items: seq<Value>): string
    decreases items, 0
  {
    if items == [] then ""
    else Encode(items[0]) + (if |items| > 1 then "," else "") + EncodeItems(items[1..])
  }

  function EncodeFields(fields: seq<Field>): string
    decreases fields, 0
  {
    if fields == [] then ""
    else
      Quoted(fields[0].key) + ":" + Encode(fields[0].value) + (if |fields| > 1 then "," else "")
        + EncodeFields(fields[1..])
  }

  /** Bytes of the compact text. */
  function TextLength(v: Value): nat {
    Utf8Length(Encode(v))
  }

  // ----- lengths

  lemma {:induction false} LengthOfSum(s: string, t: string)
    ensures Utf8Length(s + t) == Utf8Length(s) + Utf8Length(t)
    decreases |s|
  {
    if s == "" {
      assert s + t == t;
    } else {
      assert (s + t)[1..] == s[1..] + t;
      LengthOfSum(s[1..], t);
    }
  }

  predicate Ascii(s: string) {
    forall i :: 0 <= i < |s| ==> s[i] < '\U{0080}'
  }

  lemma {:induction false} AsciiLength(s: string)
    requires Ascii(s)
    ensures Utf8Length(s) == |s|
    decreases |s|
  {
    if s != "" { AsciiLength(s[1..]); }
  }

  lemma {:induction false} DecimalLength(n: nat)
    ensures Ascii(Decimal(n)) && |Decimal(n)| == Digits(n) == Utf8Length(Decimal(n))
    decreases n
  {
    if n >= 10 { DecimalLength(n / 10); }
    AsciiLength(Decimal(n));
  }
}
