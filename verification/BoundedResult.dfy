/** Context results that state their own encoded length and drop cards until they fit. */
module BoundedResult {
  import opened Wrappers
  import opened Json
  import opened JsonText
  import opened SelfCounting

  // ----- compact encoding

  function EscapedWidth(c: char): nat {
    if c == '\"' || c == '\\' || c == '\U{0008}' || c == '\U{0009}' || c == '\U{000A}' || c == '\U{000C}'
      || c == '\U{000D}' then 2
    else if c < '\U{0020}' then 6
    else Utf8Width(c)
  }

  function QuotedLength(s: string): nat {
    if s == "" then 2 else EscapedWidth(s[0]) + QuotedLength(s[1..])
  }

  function EncodedLength(v: Value): (n: nat)
    decreases v, 0
  {
    match v
    case Null => 4
    case Bool(truth) => if truth then 4 else 5
    case Natural(n) => Digits(n)
    case Negative(n) => 1 + Digits(n)
    case Fraction(text) => Utf8Length(text)
    case Text(text) => QuotedLength(text)
    case Array(items) => 2 + ItemsLength(items)
    case Object(fields) => 2 + FieldsLength(fields)
  }

  function ItemsLength(items: seq<Value>): nat
    decreases items, 0
  {
    if items == [] then 0
    else EncodedLength(items[0]) + (if |items| > 1 then 1 else 0) + ItemsLength(items[1..])
  }

  function FieldsLength(fields: seq<Field>): nat
    decreases fields, 0
  {
    if fields == [] then 0
    else
      QuotedLength(fields[0].key) + 1 + EncodedLength(fields[0].value) + (if |fields| > 1 then 1 else 0)
        + FieldsLength(fields[1..])
  }

  // ----- the length is that of a text

  lemma {:induction false} QuotedLengthIsText(s: string)
    ensures Utf8Length(EscapedText(s)) + 2 == QuotedLength(s)
    ensures Utf8Length(Quoted(s)) == QuotedLength(s)
    decreases |s|
  {
    if s != "" {
      QuotedLengthIsText(s[1..]);
      EscapedWidthIsText(s[0]);
      LengthOfSum(Escaped(s[0]), EscapedText(s[1..]));
      hide Escaped;
      hide EscapedWidth;
    }
    AsciiLength("\"");
    LengthOfSum("\"" + EscapedText(s), "\"");
    LengthOfSum("\"", EscapedText(s));
  }

  lemma EscapedWidthIsText(c: char)
    ensures Utf8Length(Escaped(c)) == EscapedWidth(c)
  {
    if c == '\"' || c == '\\' || c < '\U{0020}' { AsciiLength(Escaped(c)); } else { assert [c][1..] == ""; }
  }

  /** The length that the loop works with is the byte length of the compact text. */
  lemma {:induction false} EncodedLengthIsText(v: Value)
    ensures EncodedLength(v) == TextLength(v)
    decreases v, 0
  {
    match v
    case Null => AsciiLength("null");
    case Bool(truth) => AsciiLength(Encode(v));
    case Natural(n) => DecimalLength(n);
    case Negative(n) =>
      DecimalLength(n);
      AsciiLength("-");
      LengthOfSum("-", Decimal(n));
    case Fraction(_) =>
    case Text(text) => QuotedLengthIsText(text);
    case Array(items) =>
      ItemsLengthIsText(items);
      Enclosed("[", EncodeItems(items), "]");
    case Object(fields) =>
      FieldsLengthIsText(fields);
      Enclosed("{", EncodeFields(fields), "}");
  }

  lemma Enclosed(open: string, s: string, close: string)
    requires |open| == |close| == 1 && Ascii(open) && Ascii(close)
    ensures Utf8Length(open + s + close) == Utf8Length(s) + 2
  {
    AsciiLength(open);
    AsciiLength(close);
    LengthOfSum(open + s, close);
    LengthOfSum(open, s);
  }

  lemma {:induction false} ItemsLengthIsText(items: seq<Value>)
    ensures ItemsLength(items) == Utf8Length(EncodeItems(items))
    decreases items, 0
  {
    if items != [] {
      EncodedLengthIsText(items[0]);
      ItemsLengthIsText(items[1..]);
      var comma := if |items| > 1 then "," else "";
      AsciiLength(comma);
      LengthOfSum(Encode(items[0]) + comma, EncodeItems(items[1..]));
      LengthOfSum(Encode(items[0]), comma);
    }
    hide EncodedLength;
    hide Encode;
  }

  lemma {:induction false} FieldsLengthIsText(fields: seq<Field>)
    ensures FieldsLength(fields) == Utf8Length(EncodeFields(fields))
    decreases fields, 0
  {
    if fields != [] {
      var key, value, rest := Quoted(fields[0].key), Encode(fields[0].value), EncodeFields(fields[1..]);
      QuotedLengthIsText(fields[0].key);
      EncodedLengthIsText(fields[0].value);
      FieldsLengthIsText(fields[1..]);
      var comma := if |fields| > 1 then "," else "";
      AsciiLength(comma);
      AsciiLength(":");
      LengthOfSum(key + ":" + value + comma, rest);
      LengthOfSum(key + ":" + value, comma);
      LengthOfSum(key + ":", value);
      LengthOfSum(key, ":");
    }
    hide EncodedLength;
    hide Encode;
    hide Quoted;
    hide QuotedLength;
  }

  // ----- the loop

  datatype Outcome = Ok(value: Value) | Unencodable | NoCards | MetadataTooLarge

  /** Encoding succeeds only for lengths that a machine word holds. */
  predicate Encodable(v: Value) {
    EncodedLength(v) <= U64_MAX
  }

  /** Up to `rounds` times: encode, stop if the declared size is right, otherwise declare the size found. */
  function Recount(v: Value, rounds: nat): Option<Value>
    decreases rounds
  {
    if rounds == 0 then Some(v)
    else if !Encodable(v) then None
    else if !v.Object? || Get(v.fields, "bytes") == Some(Natural(EncodedLength(v))) then Some(v)
    else Recount(Object(Insert(v.fields, "bytes", Natural(EncodedLength(v)))), rounds - 1)
  }

  function CardsOf(v: Value): Option<seq<Value>> {
    if v.Object? && Get(v.fields, "cards").Some? && Get(v.fields, "cards").value.Array?
    then Some(Get(v.fields, "cards").value.items) else None
  }

  function CardCount(v: Value): nat {
    if CardsOf(v).Some? then |CardsOf(v).value| else 0
  }

  /** Drops the last card and says so. */
  function DropCard(v: Value): (r: Value)
    requires CardsOf(v).Some? && CardsOf(v).value != []
    ensures r.Object? && CardsOf(r) == Some(CardsOf(v).value[..CardCount(v) - 1])
    ensures Get(r.fields, "truncated") == Some(Bool(true))
    ensures forall k :: k != "cards" && k != "truncated" ==> Get(r.fields, k) == Get(v.fields, k)
  {
    var fewer := Insert(v.fields, "cards", Array(CardsOf(v).value[..CardCount(v) - 1]));
    var r := Object(Insert(fewer, "truncated", Bool(true)));
    assert forall k :: Get(r.fields, k) == if k == "truncated" then Some(Bool(true)) else Get(fewer, k) by {
      forall k { InsertGet(fewer, "truncated", Bool(true), k); }
    }
    assert forall k :: Get(fewer, k) == if k == "cards" then Some(Array(CardsOf(v).value[..CardCount(v) - 1]))
      else Get(v.fields, k) by {
      forall k { InsertGet(v.fields, "cards", Array(CardsOf(v).value[..CardCount(v) - 1]), k); }
    }
    r
  }

  lemma {:induction false} RecountKeeps(v: Value, rounds: nat)
    requires Recount(v, rounds).Some?
    ensures var r := Recount(v, rounds).value;
      && CardsOf(r) == CardsOf(v) && (r.Object? <==> v.Object?) && (!v.Object? ==> r == v)
      && (v.Object? ==> forall k :: k != "bytes" ==> Get(r.fields, k) == Get(v.fields, k))
    decreases rounds
  {
    if rounds > 0 && v.Object? && Get(v.fields, "bytes") != Some(Natural(EncodedLength(v))) {
      var value := Natural(EncodedLength(v));
      forall k ensures Get(Insert(v.fields, "bytes", value), k) == if k == "bytes" then Some(value)
        else Get(v.fields, k) {
        InsertGet(v.fields, "bytes", value, k);
      }
      RecountKeeps(Object(Insert(v.fields, "bytes", value)), rounds - 1);
    }
  }

  function Bounded(v: Value, maxBytes: nat): Outcome
    decreases CardCount(v)
  {
    var counted := Recount(v, 4);
    if counted.None? || !Encodable(counted.value) then Unencodable
    else if EncodedLength(counted.value) <= maxBytes then Ok(counted.value)
    else
      var cards := CardsOf(counted.value);
      if cards.None? then NoCards
      else if cards.value == [] then MetadataTooLarge
      else
        RecountKeeps(v, 4);
        Bounded(DropCard(counted.value), maxBytes)
  }

  /** `bounded_result` */
  method BoundResult(result: Value, maxBytes: nat) returns (outcome: Outcome)
    ensures outcome == Bounded(result, maxBytes)
    ensures result.Object? && outcome.Ok? ==>
      && outcome.value.Object? && TextLength(outcome.value) <= maxBytes
      && Get(outcome.value.fields, "bytes") == Some(Natural(TextLength(outcome.value)))
  {
    hide Insert;
    hide EncodedLength;
    hide TextLength;
    if result.Object? { var _ := BoundedIsExact(result, maxBytes); }
    var v := result;
    while true
      invariant Bounded(result, maxBytes) == Bounded(v, maxBytes)
      decreases CardCount(v)
    {
      ghost var before := v;
      var i := 0;
      while i < 4
        invariant 0 <= i <= 4 && Recount(before, 4) == Recount(v, 4 - i)
      {
        if !Encodable(v) { return Unencodable; }
        if !v.Object? || Get(v.fields, "bytes") == Some(Natural(EncodedLength(v))) { break; }
        v := Object(Insert(v.fields, "bytes", Natural(EncodedLength(v))));
        i := i + 1;
      }
      assert Recount(before, 4) == Some(v);
      RecountKeeps(before, 4);
      if !Encodable(v) { return Unencodable; }
      if EncodedLength(v) <= maxBytes { return Ok(v); }
      var cards := CardsOf(v);
      if cards.None? { return NoCards; }
      if cards.value == [] { return MetadataTooLarge; }
      v := DropCard(v);
    }
  }

  // ----- the declared size

  /** The encoded length of an object is a base plus the digits of the number it declares. */
  function Base(fields: seq<Field>): nat {
    1 + FieldsLength(Insert(fields, "bytes", Natural(0)))
  }

  lemma {:induction false} InsertLength(fields: seq<Field>, key: string, v: Value, w: Value)
    ensures FieldsLength(Insert(fields, key, v)) + EncodedLength(w)
      == FieldsLength(Insert(fields, key, w)) + EncodedLength(v)
    ensures FieldsLength(Insert(fields, key, v)) >= EncodedLength(v) + 2
    decreases |fields|
  {
    hide EncodedLength;
    hide QuotedLength;
    var rv, rw := Insert(fields, key, v), Insert(fields, key, w);
    if fields == [] {
      assert rv[1..] == rw[1..] == [];
      AtLeastQuotes(key);
    } else if fields[0].key == key {
      assert rv[1..] == rw[1..] == fields[1..];
      AtLeastQuotes(key);
    } else if Text.Before(key, fields[0].key) {
      assert rv[1..] == rw[1..] == fields;
      AtLeastQuotes(key);
    } else {
      InsertLength(fields[1..], key, v, w);
      assert rv[1..] == Insert(fields[1..], key, v) && rw[1..] == Insert(fields[1..], key, w);
    }
  }

  lemma {:induction false} AtLeastQuotes(s: string)
    ensures QuotedLength(s) >= 2
    decreases |s|
  {
    if s != "" { AtLeastQuotes(s[1..]); }
  }

  lemma DeclaredLength(fields: seq<Field>, n: nat)
    ensures EncodedLength(Object(Insert(fields, "bytes", Natural(n)))) == Base(fields) + Digits(n)
    ensures Base(fields) >= 2
  {
    InsertLength(fields, "bytes", Natural(n), Natural(0));
    InsertLength(fields, "bytes", Natural(0), Natural(0));
    assert EncodedLength(Natural(0)) == 1;
  }

  /** With a number declared, recounting is the self-counting iteration. */
  lemma {:induction false} RecountSettles(fields: seq<Field>, n: nat, rounds: nat)
    ensures var r := Recount(Object(Insert(fields, "bytes", Natural(n))), rounds);
      r.Some? ==> r == Some(Object(Insert(fields, "bytes", Natural(Settle(Base(fields), n, rounds)))))
    decreases rounds
  {
    hide Insert;
    hide EncodedLength;
    hide Base;
    hide Digits;
    var v := Object(Insert(fields, "bytes", Natural(n)));
    DeclaredLength(fields, n);
    InsertGet(fields, "bytes", Natural(n), "bytes");
    if rounds > 0 && n != Base(fields) + Digits(n) {
      InsertTwice(fields, "bytes", Natural(n), Natural(EncodedLength(v)));
      RecountSettles(fields, Base(fields) + Digits(n), rounds - 1);
    }
  }

  /** Four rounds make any object declare the exact length of its compact text, whatever it declared before. */
  lemma RecountIsExact(v: Value)
    requires v.Object? && Recount(v, 4).Some?
    ensures var r := Recount(v, 4).value;
      r.Object? && Get(r.fields, "bytes") == Some(Natural(TextLength(r)))
  {
    EncodedLengthIsText(Recount(v, 4).value);
    var n := EncodedLength(v);
    if Get(v.fields, "bytes") != Some(Natural(n)) {
      var base := Base(v.fields);
      var m := Settle(base, n, 3);
      RecountSettles(v.fields, n, 3);
      DeclaredLength(v.fields, m);
      AnyStartSettles(base, n, 3);
      InsertGet(v.fields, "bytes", Natural(m), "bytes");
      hide Insert;
      hide EncodedLength;
      hide Base;
      hide Settle;
    }
  }

  // ----- main result

  /**
   On success the result declares the exact length of its compact text, within the limit; its cards are a prefix of
   the cards that came in; `truncated` is set by the loop exactly when a card was dropped; nothing else has changed.
   Which error is reported depends on whether there is a list of cards.
   */
  lemma {:induction false} BoundedIsExact(v: Value, maxBytes: nat) returns (kept: nat)
    requires v.Object?
    ensures Bounded(v, maxBytes) == NoCards ==> CardsOf(v).None?
    ensures Bounded(v, maxBytes) == MetadataTooLarge ==> CardsOf(v).Some?
    ensures Bounded(v, maxBytes).Ok? ==>
      var r := Bounded(v, maxBytes).value;
      && r.Object? && Get(r.fields, "bytes") == Some(Natural(TextLength(r))) && TextLength(r) <= maxBytes
      && kept <= CardCount(v) && CardsOf(r) == (if CardsOf(v).None? then None else Some(CardsOf(v).value[..kept]))
      && Get(r.fields, "truncated") == (if kept < CardCount(v) then Some(Bool(true)) else Get(v.fields, "truncated"))
      && (kept < CardCount(v) <==> TextLength(Recount(v, 4).value) > maxBytes)
      && forall k :: k != "bytes" && k != "cards" && k != "truncated" ==> Get(r.fields, k) == Get(v.fields, k)
    decreases CardCount(v)
  {
    hide Insert;
    hide EncodedLength;
    hide TextLength;
    kept := CardCount(v);
    if Recount(v, 4).None? || !Encodable(Recount(v, 4).value) { return; }
    var counted := Recount(v, 4).value;
    RecountIsExact(v);
    EncodedLengthIsText(counted);
    RecountKeeps(v, 4);
    if EncodedLength(counted) <= maxBytes {
      assert CardsOf(v).Some? ==> CardsOf(v).value[..kept] == CardsOf(v).value;
    } else if CardCount(v) > 0 {
      var fewer := DropCard(counted);
      kept := BoundedIsExact(fewer, maxBytes);
      var cards := CardsOf(v).value;
      if Bounded(fewer, maxBytes).Ok? {
        assert cards[..CardCount(v) - 1][..kept] == cards[..kept];
      }
    }
  }

  // ----- the kept prefix is the longest

  /** The result with j cards, as the loop meets it on its way down from all cards. */
  function Attempt(v: Value, j: nat): (r: Option<Value>)
    requires CardsOf(v).Some? && j <= CardCount(v)
    ensures r.Some? ==> CardsOf(r.value) == Some(CardsOf(v).value[..j])
    decreases CardCount(v) - j
  {
    hide Insert;
    hide EncodedLength;
    if j == CardCount(v) then
      assert Recount(v, 4).Some? ==> CardsOf(Recount(v, 4).value) == CardsOf(v) by {
        if Recount(v, 4).Some? { RecountKeeps(v, 4); }
      }
      assert CardsOf(v).value[..j] == CardsOf(v).value;
      Recount(v, 4)
    else
      var more := Attempt(v, j + 1);
      if more.None? then None
      else
        var fewer := DropCard(more.value);
        assert CardsOf(v).value[..j + 1][..j] == CardsOf(v).value[..j];
        assert Recount(fewer, 4).Some? ==> CardsOf(Recount(fewer, 4).value) == CardsOf(fewer) by {
          if Recount(fewer, 4).Some? { RecountKeeps(fewer, 4); }
        }
        Recount(fewer, 4)
  }

  /** Dropping a card from the first attempt changes none of the later ones. */
  lemma {:induction false} AttemptAfterDrop(v: Value, j: nat)
    requires CardsOf(v).Some? && j < CardCount(v) && Recount(v, 4).Some?
    requires var counted := Recount(v, 4).value;
      CardsOf(counted) == CardsOf(v)
    ensures Attempt(v, j) == Attempt(DropCard(Recount(v, 4).value), j)
    decreases CardCount(v) - j
  {
    hide Insert;
    hide EncodedLength;
    hide Recount;
    if j + 1 < CardCount(v) { AttemptAfterDrop(v, j + 1); }
  }

  ghost predicate FitsAt(v: Value, maxBytes: nat, j: nat)
    requires CardsOf(v).Some? && j <= CardCount(v)
  {
    Attempt(v, j).Some? && TextLength(Attempt(v, j).value) <= U64_MAX && TextLength(Attempt(v, j).value) <= maxBytes
  }

  ghost predicate TooLargeAt(v: Value, maxBytes: nat, j: nat)
    requires CardsOf(v).Some? && j <= CardCount(v)
  {
    Attempt(v, j).Some? && maxBytes < TextLength(Attempt(v, j).value) <= U64_MAX
  }

  /**
   Where the loop stops: at the largest number of cards that is not too large.  What it hands out is that attempt if
   it fits; the cards ran out exactly if every number of cards is too large.
   */
  lemma {:induction false} BoundedIsLongest(v: Value, maxBytes: nat) returns (stop: nat)
    requires CardsOf(v).Some?
    ensures stop <= CardCount(v) && forall j :: stop < j <= CardCount(v) ==> TooLargeAt(v, maxBytes, j)
    ensures FitsAt(v, maxBytes, stop) <==> Bounded(v, maxBytes).Ok?
    ensures Bounded(v, maxBytes).Ok? ==> Bounded(v, maxBytes).value == Attempt(v, stop).value
    ensures Bounded(v, maxBytes) == MetadataTooLarge <==> stop == 0 && TooLargeAt(v, maxBytes, 0)
    ensures Bounded(v, maxBytes) == Unencodable <==> !FitsAt(v, maxBytes, stop) && !TooLargeAt(v, maxBytes, stop)
    decreases CardCount(v)
  {
    hide Insert;
    hide EncodedLength;
    hide Recount;
    hide TextLength;
    stop := CardCount(v);
    assert Attempt(v, stop) == Recount(v, 4);
    if Recount(v, 4).Some? { EncodedLengthIsText(Recount(v, 4).value); }
    if TooLargeAt(v, maxBytes, stop) && stop > 0 {
      var fewer := DropCard(Recount(v, 4).value);
      AttemptsAfterDrop(v);
      stop := BoundedIsLongest(fewer, maxBytes);
      forall j | stop < j <= CardCount(v) ensures TooLargeAt(v, maxBytes, j) {
        assert j < CardCount(v) ==> TooLargeAt(fewer, maxBytes, j);
      }
    }
  }

  lemma AttemptsAfterDrop(v: Value)
    requires CardsOf(v).Some? && CardCount(v) > 0 && Attempt(v, CardCount(v)).Some?
    ensures Recount(v, 4).Some? && CardsOf(Recount(v, 4).value) == CardsOf(v)
    ensures forall j :: 0 <= j < CardCount(v) ==> Attempt(v, j) == Attempt(DropCard(Recount(v, 4).value), j)
  {
    assert Attempt(v, CardCount(v)) == Recount(v, 4);
    RecountKeeps(v, 4);
    forall j | 0 <= j < CardCount(v) ensures Attempt(v, j) == Attempt(DropCard(Recount(v, 4).value), j) {
      AttemptAfterDrop(v, j);
    }
  }
}
