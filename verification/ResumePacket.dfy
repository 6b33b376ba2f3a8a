/** The resume packet: it declares its own size and cuts its sections, last first, until it fits. */
module ResumePacket {
  import opened Wrappers
  import opened Json
  import opened JsonText
  import opened SelfCounting

  const MAX_BYTES: nat := 16 * 1024
  const MAX_NODES: nat := 10_000
  const MARKER := "[TRUNCATED]"

  // ----- the size metric

  datatype Count = Count(bytes: nat, nodes: nat)

  /** Bytes of the public text of a value, and the nodes seen so far; None beyond the node budget or at a fraction. */
  function Measure(v: Value, nodes: nat): Option<Count>
    decreases v, 0
  {
    var n := nodes + 1;
    if n > MAX_NODES then None
    else
      match v
      case Text(text) => Some(Count(Utf8Length(text), n))
      case Array(items) => MeasureItems(items, n)
      case Object(fields) => MeasureFields(fields, n)
      case Null => Some(Count(4, n))
      case Bool(truth) => Some(Count(if truth then 4 else 5, n))
      case Natural(k) => Some(Count(Digits(k), n))
      case Negative(k) => Some(Count(1 + Digits(k), n))
      case Fraction(_) => None
  }

  function MeasureItems(items: seq<Value>, nodes: nat): Option<Count>
    decreases items, 0
  {
    if items == [] then Some(Count(0, nodes))
    else
      var first := Measure(items[0], nodes);
      if first.None? then None
      else
        var rest := MeasureItems(items[1..], first.value.nodes);
        if rest.None? then None else Some(rest.value.(bytes := first.value.bytes + rest.value.bytes))
  }

  function MeasureFields(fields: seq<Field>, nodes: nat): Option<Count>
    decreases fields, 0
  {
    if fields == [] then Some(Count(0, nodes))
    else if nodes + 1 > MAX_NODES then None
    else
      var first := Measure(fields[0].value, nodes + 1);
      if first.None? then None
      else
        var rest := MeasureFields(fields[1..], first.value.nodes);
        if rest.None? then None
        else Some(rest.value.(bytes := Utf8Length(fields[0].key) + first.value.bytes + rest.value.bytes))
  }

  /** The measured size, or the largest machine word where there is none. */
  function Size(v: Value): nat {
    var count := Measure(v, 0);
    if count.None? then U64_MAX else count.value.bytes
  }

  // ----- what is measured

  /** The keys and the leaves of a value, one after the other. */
  ghost function Plain(v: Value): string
    decreases v, 0
  {
    match v
    case Text(text) => text
    case Array(items) => PlainItems(items)
    case Object(fields) => PlainFields(fields)
    case _ => Encode(v)
  }

  ghost function PlainItems(items: seq<Value>): string
    decreases items, 0
  {
    if items == [] then "" else Plain(items[0]) + PlainItems(items[1..])
  }

  ghost function PlainFields(fields: seq<Field>): string
    decreases fields, 0
  {
    if fields == [] then "" else fields[0].key + Plain(fields[0].value) + PlainFields(fields[1..])
  }

  /** Every value counts, and every key. */
  ghost function Nodes(v: Value): nat
    decreases v, 0
  {
    match v
    case Array(items) => 1 + NodesOfItems(items)
    case Object(fields) => 1 + NodesOfFields(fields)
    case _ => 1
  }

  ghost function NodesOfItems(items: seq<Value>): nat
    decreases items, 0
  {
    if items == [] then 0 else Nodes(items[0]) + NodesOfItems(items[1..])
  }

  ghost function NodesOfFields(fields: seq<Field>): nat
    decreases fields, 0
  {
    if fields == [] then 0 else 1 + Nodes(fields[0].value) + NodesOfFields(fields[1..])
  }

  ghost predicate Whole(v: Value)
    decreases v, 0
  {
    match v
    case Fraction(_) => false
    case Array(items) => forall i :: 0 <= i < |items| ==> Whole(items[i])
    case Object(fields) => forall i :: 0 <= i < |fields| ==> Whole(fields[i].value)
    case _ => true
  }

  ghost predicate WholeItems(items: seq<Value>) {
    forall i :: 0 <= i < |items| ==> Whole(items[i])
  }

  ghost predicate WholeFields(fields: seq<Field>) {
    forall i :: 0 <= i < |fields| ==> Whole(fields[i].value)
  }

  /** The count is None exactly for a fraction or too many nodes, and otherwise exact. */
  ghost predicate Counts(count: Option<Count>, whole: bool, text: string, nodes: nat) {
    count == if whole && nodes <= MAX_NODES then Some(Count(Utf8Length(text), nodes)) else None
  }

  lemma {:induction false} MeasureCounts(v: Value, nodes: nat)
    requires nodes <= MAX_NODES
    ensures Counts(Measure(v, nodes), Whole(v), Plain(v), nodes + Nodes(v))
    decreases v, 0
  {
    match v
    case Array(items) =>
      if nodes < MAX_NODES { MeasureItemsCounts(items, nodes + 1); }
    case Object(fields) =>
      if nodes < MAX_NODES { MeasureFieldsCounts(fields, nodes + 1); }
    case _ => LeafCounts(v, nodes);
  }

  lemma LeafCounts(v: Value, nodes: nat)
    requires nodes <= MAX_NODES && !v.Array? && !v.Object?
    ensures Counts(Measure(v, nodes), Whole(v), Plain(v), nodes + 1)
  {
    match v
    case Natural(n) => DecimalLength(n);
    case Negative(n) =>
      DecimalLength(n);
      LengthOfSum("-", Decimal(n));
      AsciiLength("-");
    case Bool(truth) => AsciiLength(Encode(v));
    case Null => AsciiLength("null");
    case Text(_) =>
    case Fraction(_) =>
  }

  lemma {:induction false} MeasureItemsCounts(items: seq<Value>, nodes: nat)
    requires nodes <= MAX_NODES
    ensures Counts(MeasureItems(items, nodes), WholeItems(items), PlainItems(items), nodes + NodesOfItems(items))
    decreases items, 0
  {
    if items != [] {
      MeasureCounts(items[0], nodes);
      assert WholeItems(items) <==> Whole(items[0]) && WholeItems(items[1..]);
      LengthOfSum(Plain(items[0]), PlainItems(items[1..]));
      var first := Measure(items[0], nodes);
      hide Measure;
      if first.Some? { MeasureItemsCounts(items[1..], first.value.nodes); }
    }
  }

  lemma {:induction false} MeasureFieldsCounts(fields: seq<Field>, nodes: nat)
    requires nodes <= MAX_NODES
    ensures Counts(MeasureFields(fields, nodes), WholeFields(fields), PlainFields(fields),
      nodes + NodesOfFields(fields))
    decreases fields, 0
  {
    if fields != [] && nodes < MAX_NODES {
      var v, rest := fields[0].value, fields[1..];
      MeasureCounts(v, nodes + 1);
      assert WholeFields(fields) <==> Whole(v) && WholeFields(rest);
      LengthOfSum(fields[0].key, Plain(v));
      LengthOfSum(fields[0].key + Plain(v), PlainFields(rest));
      var first := Measure(v, nodes + 1);
      hide Measure;
      if first.Some? { MeasureFieldsCounts(rest, first.value.nodes); }
    }
  }

  // ----- shortening a text

  /** The longest prefix of whole characters within a number of bytes. */
  function Prefix(s: string, maxBytes: nat): (r: string)
    ensures r <= s && Utf8Length(r) <= maxBytes
    ensures r == s || Utf8Length(r) + Utf8Width(s[|r|]) > maxBytes
  {
    if s == "" || Utf8Width(s[0]) > maxBytes then ""
    else
      var rest := Prefix(s[1..], maxBytes - Utf8Width(s[0]));
      assert ([s[0]] + rest)[1..] == rest;
      [s[0]] + rest
  }

  function Shortened(s: string, maxBytes: nat): string {
    if Utf8Length(s) <= maxBytes then s
    else if maxBytes <= |MARKER| then MARKER[..maxBytes]
    else Prefix(s, maxBytes - |MARKER|) + MARKER
  }

  // ----- drafts and packets

  datatype Section = Section(name: string, text: Option<string>)

  /** What a resume packet is made from: sections in order of priority and the fields that cutting never changes. */
  datatype Source = Source(sections: seq<Section>, handoff: Value, status: string, readNext: seq<string>,
    fixed: seq<Field>)

  datatype Draft = Draft(sections: seq<Section>, truncated: bool, names: seq<string>)

  function Body(s: Section): string {
    if s.text.Some? then s.text.value else ""
  }

  function Content(sections: seq<Section>): seq<Field> {
    if sections == [] then []
    else
      var last := sections[|sections| - 1];
      Insert(Content(sections[..|sections| - 1]), last.name, if last.text.Some? then Text(last.text.value) else Null)
  }

  function Included(sections: seq<Section>): seq<Field> {
    if sections == [] then []
    else
      var last := sections[|sections| - 1];
      Insert(Included(sections[..|sections| - 1]), last.name, Natural(Utf8Length(Body(last))))
  }

  function Texts(strings: seq<string>): seq<Value> {
    seq(|strings|, i requires 0 <= i < |strings| => Text(strings[i]))
  }

  /** A list followed by the names it does not hold yet. */
  function AddNames(list: seq<string>, names: seq<string>): seq<string>
    decreases |names|
  {
    if names == [] then list
    else AddNames(if names[0] in list then list else list + [names[0]], names[1..])
  }

  /** The fields of a packet that declares no size yet. */
  function Fields(source: Source, draft: Draft, handoff: Value): seq<Field> {
    var f := Insert(source.fixed, "content", Object(Content(draft.sections)));
    var f := Insert(f, "handoff", handoff);
    var context := Insert([Field("includedBytes", Object(Included(draft.sections)))], "status", Text(source.status));
    var f := Insert(f, "context", Object(context));
    var f := Insert(f, "truncated", Bool(draft.truncated));
    var f := Insert(f, "truncatedMarker", if draft.truncated then Text(MARKER) else Null);
    Insert(f, "readNext", Array(Texts(AddNames(source.readNext, draft.names))))
  }

  /** Up to `rounds` times: measure, stop if the declared size is right, otherwise declare the size found. */
  function Declare(fields: seq<Field>, rounds: nat): seq<Field>
    decreases rounds
  {
    var size := Size(Object(fields));
    if rounds == 0 || Get(fields, "bytes") == Some(Natural(size)) then fields
    else Declare(Insert(fields, "bytes", Natural(size)), rounds - 1)
  }

  function Packet(source: Source, draft: Draft, handoff: Value): Value {
    Object(Declare(Insert(Fields(source, draft, handoff), "bytes", Natural(0)), 4))
  }

  predicate Fits(packet: Value) {
    Size(packet) <= MAX_BYTES
  }

  // ----- cutting

  /** How long the cut section may stay: the excess and 64 bytes more have to go. */
  function Target(size: nat, length: nat): nat {
    var excess := if size > MAX_BYTES then size - MAX_BYTES else 1;
    if length >= excess + 64 then length - (excess + 64) else 0
  }

  function Cut(source: Source, draft: Draft, index: nat): (r: Draft)
    requires index < |draft.sections|
    ensures |r.sections| == |draft.sections|
  {
    hide Packet;
    hide Shortened;
    var section := draft.sections[index];
    var target := Target(Size(Packet(source, draft, source.handoff)), Utf8Length(Body(section)));
    var shorter := Section(section.name, Some(Shortened(Body(section), target)));
    Draft(
      draft.sections[index := shorter],
      true,
      if section.name in draft.names then draft.names else draft.names + [section.name])
  }

  lemma {:induction false} MarkerLength(n: nat)
    requires n <= |MARKER|
    ensures Utf8Length(MARKER[..n]) == n
    decreases n
  {
    if n > 0 {
      MarkerLength(n - 1);
      assert MARKER[..n] == MARKER[..n - 1] + [MARKER[n - 1]];
      LengthOfSum(MARKER[..n - 1], [MARKER[n - 1]]);
      assert Utf8Length([MARKER[n - 1]]) == 1;
    }
  }

  /** Shortening never exceeds its budget. */
  lemma ShortenedFits(s: string, maxBytes: nat)
    ensures Utf8Length(Shortened(s, maxBytes)) <= maxBytes
  {
    if Utf8Length(s) > maxBytes {
      if maxBytes <= |MARKER| {
        MarkerLength(maxBytes);
      } else {
        MarkerLength(|MARKER|);
        assert MARKER[..|MARKER|] == MARKER;
        LengthOfSum(Prefix(s, maxBytes - |MARKER|), MARKER);
      }
    }
  }

  /** Cuts one section until the packet fits or the section is empty. */
  function Squeeze(source: Source, draft: Draft, index: nat): (r: Draft)
    requires index < |draft.sections|
    ensures |r.sections| == |draft.sections|
    decreases Utf8Length(Body(draft.sections[index]))
  {
    hide Packet;
    hide Cut;
    if Fits(Packet(source, draft, source.handoff)) || Body(draft.sections[index]) == "" then draft
    else
      CutIsShorter(source, draft, index);
      Squeeze(source, Cut(source, draft, index), index)
  }

  lemma CutIsShorter(source: Source, draft: Draft, index: nat)
    requires index < |draft.sections| && Body(draft.sections[index]) != ""
    ensures Utf8Length(Body(Cut(source, draft, index).sections[index])) < Utf8Length(Body(draft.sections[index]))
  {
    hide Packet;
    var body := Body(draft.sections[index]);
    assert Utf8Length(body) > 0;
    ShortenedFits(body, Target(Size(Packet(source, draft, source.handoff)), Utf8Length(body)));
  }

  /** Squeezes the first n sections, last first. */
  function SqueezeDown(source: Source, draft: Draft, n: nat): (r: Draft)
    requires n <= |draft.sections|
    ensures |r.sections| == |draft.sections|
    decreases n
  {
    hide Squeeze;
    if n == 0 then draft
    else
      SqueezeDown(source, Squeeze(source, draft, n - 1), n - 1)
  }

  datatype Outcome = Ok(packet: Value) | TooManyNodes | MetadataTooLarge

  function Trimmed(source: Source): (r: Draft)
    ensures |r.sections| == |source.sections|
  {
    SqueezeDown(source, Draft(source.sections, false, []), |source.sections|)
  }

  /** The handoff that is left in the packet: none once cutting every section was not enough. */
  function FinalHandoff(source: Source): Value {
    if Fits(Packet(source, Trimmed(source), source.handoff)) then source.handoff else Null
  }

  function Resume(source: Source): Outcome {
    var packet := Packet(source, Trimmed(source), FinalHandoff(source));
    if Measure(packet, 0).None? then TooManyNodes
    else if !Fits(packet) then MetadataTooLarge
    else Ok(packet)
  }

  /** The part of `resume_packet` that builds and cuts. */
  method ResumePacket(source: Source) returns (outcome: Outcome)
    ensures outcome == Resume(source)
  {
    hide Packet;
    hide Cut;
    hide Measure;
    var draft := Draft(source.sections, false, []);
    var packet := Packet(source, draft, source.handoff);
    var index: nat := |source.sections|;
    while index > 0
      invariant index <= |draft.sections| == |source.sections|
      invariant packet == Packet(source, draft, source.handoff)
      invariant SqueezeDown(source, draft, index) == Trimmed(source)
    {
      index := index - 1;
      ghost var before := draft;
      SqueezeKeeps(source, before, index);
      while Size(packet) > MAX_BYTES
        invariant |draft.sections| == |source.sections|
        invariant packet == Packet(source, draft, source.handoff)
        invariant Squeeze(source, draft, index) == Squeeze(source, before, index)
        decreases Utf8Length(Body(draft.sections[index]))
      {
        if Body(draft.sections[index]) == "" { break; }
        CutIsShorter(source, draft, index);
        CutKeeps(source, draft, index);
        draft := Cut(source, draft, index);
        packet := Packet(source, draft, source.handoff);
        if Body(draft.sections[index]) == "" { break; }
      }
      assert draft == Squeeze(source, before, index);
    }
    assert draft == Trimmed(source);
    if Size(packet) > MAX_BYTES {
      packet := Packet(source, draft, Null);
    }
    assert packet == Packet(source, Trimmed(source), FinalHandoff(source));
    if Measure(packet, 0).None? { return TooManyNodes; }
    if Size(packet) > MAX_BYTES { return MetadataTooLarge; }
    return Ok(packet);
  }

  lemma CutKeeps(source: Source, draft: Draft, index: nat)
    requires index < |draft.sections|
    ensures var r := Cut(source, draft, index);
      && |r.sections| == |draft.sections| && r.sections[index].name == draft.sections[index].name && r.truncated
      && (forall j :: 0 <= j < |r.sections| && j != index ==> r.sections[j] == draft.sections[j])
      && (forall name :: name in r.names <==> name in draft.names || name == draft.sections[index].name)
  {
    hide Packet;
    hide Target;
    hide Shortened;
  }

  // ----- which texts can remain

  /** A cut text: empty or a prefix of the marker, or a prefix of the source followed by the marker. */
  ghost predicate CutOf(s: string, text: string) {
    || text <= MARKER
    || exists n: nat :: n <= |s| && text == s[..n] + MARKER
  }

  /** Cutting a text, or a text already cut, by at least 65 bytes or to nothing leaves a cut of the source. */
  lemma ShortenedIsCut(s: string, text: string, maxBytes: nat)
    requires text == s || CutOf(s, text)
    requires maxBytes == 0 || maxBytes + 65 <= Utf8Length(text)
    requires text != ""
    ensures CutOf(s, Shortened(text, maxBytes))
  {
    hide Utf8Length;
    NonEmpty(text);
    if text <= MARKER {
      MarkerLength(|text|);
      assert text == MARKER[..|text|];
    }
    if maxBytes > |MARKER| {
      var p := Prefix(text, maxBytes - |MARKER|);
      if text == s {
        assert Shortened(text, maxBytes) == s[..|p|] + MARKER;
      } else {
        var n: nat :| n <= |s| && text == s[..n] + MARKER;
        PrefixOfCut(s, n, p);
        assert p == s[..|p|];
        assert Shortened(text, maxBytes) == s[..|p|] + MARKER;
      }
    }
  }

  /** A prefix that lacks more bytes than the marker has lies within the source part. */
  lemma PrefixOfCut(s: string, n: nat, p: string)
    requires n <= |s| && p <= s[..n] + MARKER && Utf8Length(p) + |MARKER| < Utf8Length(s[..n] + MARKER)
    ensures p <= s
  {
    hide Utf8Length;
    MarkerLength(|MARKER|);
    assert MARKER[..|MARKER|] == MARKER;
    LengthOfSum(s[..n], MARKER);
    if |p| > n {
      PrefixLength(s[..n], p);
    }
  }

  lemma NonEmpty(s: string)
    requires s != ""
    ensures Utf8Length(s) > 0
  {
  }

  lemma PrefixLength(s: string, t: string)
    requires |s| <= |t| && t[..|s|] == s
    ensures Utf8Length(s) <= Utf8Length(t)
  {
    LengthOfSum(s, t[|s|..]);
    assert t == s + t[|s|..];
  }

  // ----- how much is cut

  /** What a cut takes from a section of a packet of this size, in bytes: the excess and 64 more. */
  ghost function Need(size: nat): nat {
    (if size > MAX_BYTES then size - MAX_BYTES else 1) + 64
  }

  /** A text too short for the need is emptied; of a longer one the need is taken, and at most three bytes more. */
  ghost predicate TakesTheNeed(size: nat, was: string, now: string) {
    var length := Utf8Length(was);
    if length < Need(size) then now == ""
    else length - Need(size) - 3 <= Utf8Length(now) <= length - Need(size)
  }

  lemma {:induction false} PrefixIsNear(s: string, maxBytes: nat)
    requires Utf8Length(s) > maxBytes
    ensures Utf8Length(Prefix(s, maxBytes)) >= maxBytes - 3
    decreases |s|
  {
    if Utf8Width(s[0]) <= maxBytes {
      PrefixIsNear(s[1..], maxBytes - Utf8Width(s[0]));
      var rest := Prefix(s[1..], maxBytes - Utf8Width(s[0]));
      assert ([s[0]] + rest)[1..] == rest;
    }
  }

  /** A shortened text that had to be cut lacks at most three bytes of its budget. */
  lemma ShortenedIsNear(s: string, maxBytes: nat)
    requires Utf8Length(s) > maxBytes
    ensures Utf8Length(Shortened(s, maxBytes)) >= maxBytes - 3
  {
    MarkerLength(if maxBytes <= |MARKER| then maxBytes else |MARKER|);
    if maxBytes > |MARKER| {
      PrefixIsNear(s, maxBytes - |MARKER|);
      assert MARKER[..|MARKER|] == MARKER;
      LengthOfSum(Prefix(s, maxBytes - |MARKER|), MARKER);
    }
    hide Prefix;
  }

  lemma CutTakesTheNeed(source: Source, draft: Draft, index: nat)
    requires index < |draft.sections|
    ensures TakesTheNeed(Size(Packet(source, draft, source.handoff)), Body(draft.sections[index]),
      Body(Cut(source, draft, index).sections[index]))
  {
    hide Packet;
    var body := Body(draft.sections[index]);
    var size := Size(Packet(source, draft, source.handoff));
    hide Size;
    var target := Target(size, Utf8Length(body));
    if Utf8Length(body) > 0 {
      ShortenedFits(body, target);
      ShortenedIsNear(body, target);
      hide Shortened;
      NoBytes(Shortened(body, target));
    } else {
      NoBytes(body);
    }
  }

  lemma NoBytes(s: string)
    ensures Utf8Length(s) == 0 ==> s == ""
  {
  }

  // ----- what squeezing keeps

  /** The same name, with a cut of the old text. */
  ghost predicate CutSection(was: Section, now: Section) {
    now.name == was.name && was.text.Some? && now.text.Some? && CutOf(was.text.value, now.text.value)
  }

  lemma {:induction false} SqueezeKeeps(source: Source, draft: Draft, index: nat)
    requires index < |draft.sections|
    ensures var r := Squeeze(source, draft, index);
      && |r.sections| == |draft.sections|
      && (forall j :: 0 <= j < |r.sections| && j != index ==> r.sections[j] == draft.sections[j])
      && (Fits(Packet(source, r, source.handoff)) || Body(r.sections[index]) == "")
      && (r == draft || (r.truncated && Utf8Length(Body(r.sections[index])) < Utf8Length(Body(draft.sections[index]))))
      && (forall name :: name in r.names <==> name in draft.names || (r != draft && name == draft.sections[index].name))
    decreases Utf8Length(Body(draft.sections[index]))
  {
    hide Packet;
    hide Cut;
    if !(Fits(Packet(source, draft, source.handoff)) || Body(draft.sections[index]) == "") {
      CutIsShorter(source, draft, index);
      CutKeeps(source, draft, index);
      SqueezeKeeps(source, Cut(source, draft, index), index);
    }
  }

  lemma CutStaysCut(source: Source, draft: Draft, index: nat, was: Section)
    requires index < |draft.sections| && Body(draft.sections[index]) != ""
    requires draft.sections[index] == was || CutSection(was, draft.sections[index])
    ensures CutSection(was, Cut(source, draft, index).sections[index])
  {
    hide Packet;
    hide CutOf;
    hide Shortened;
    var body := Body(draft.sections[index]);
    ShortenedIsCut(was.text.value, body, Target(Size(Packet(source, draft, source.handoff)), Utf8Length(body)));
  }

  lemma {:induction false} SqueezeCuts(source: Source, draft: Draft, index: nat, was: Section)
    requires index < |draft.sections|
    requires draft.sections[index] == was || CutSection(was, draft.sections[index])
    ensures var r := Squeeze(source, draft, index);
      |r.sections| == |draft.sections| && (r.sections[index] == was || CutSection(was, r.sections[index]))
    decreases Utf8Length(Body(draft.sections[index]))
  {
    hide Packet;
    hide Cut;
    hide CutSection;
    if !(Fits(Packet(source, draft, source.handoff)) || Body(draft.sections[index]) == "") {
      CutIsShorter(source, draft, index);
      CutStaysCut(source, draft, index, was);
      SqueezeCuts(source, Cut(source, draft, index), index, was);
    }
  }

  /** Before a turning point nothing is touched, from it on sections may be cut, beyond it everything is empty. */
  ghost predicate CutFromTheEnd(was: seq<Section>, now: seq<Section>, turn: nat) {
    && |now| == |was|
    && (forall j :: 0 <= j < |was| && j < turn ==> now[j] == was[j])
    && (forall j :: turn <= j < |was| ==> now[j] == was[j] || CutSection(was[j], now[j]))
    && (forall j :: turn < j < |was| ==> Body(now[j]) == "")
  }

  /** The names are those of the sections that changed, and a draft is marked truncated when one did. */
  ghost predicate NamesChanges(was: seq<Section>, draft: Draft) {
    && |draft.sections| == |was|
    && (forall name :: name in draft.names <==>
      exists j :: 0 <= j < |was| && draft.sections[j] != was[j] && was[j].name == name)
    && (draft.truncated <==> draft.sections != was)
  }

  ghost predicate EmptyFrom(sections: seq<Section>, n: nat) {
    forall j :: n <= j < |sections| ==> Body(sections[j]) == ""
  }

  ghost predicate Squeezed(source: Source, draft: Draft, n: nat, turn: nat) {
    && n <= turn && CutFromTheEnd(source.sections, draft.sections, turn) && NamesChanges(source.sections, draft)
    && (Fits(Packet(source, draft, source.handoff)) || (turn == n && EmptyFrom(draft.sections, n)))
  }

  /** Squeezing the next section moves the turning point down, unless the packet fits already. */
  lemma SqueezeStep(source: Source, draft: Draft, n: nat, turn: nat) returns (next: nat)
    requires 0 < n <= |source.sections| && Squeezed(source, draft, n, turn)
    ensures Squeezed(source, Squeeze(source, draft, n - 1), n - 1, next)
  {
    hide Packet;
    hide Cut;
    hide CutOf;
    hide Utf8Length;
    var was := source.sections;
    var r := Squeeze(source, draft, n - 1);
    SqueezeKeeps(source, draft, n - 1);
    SqueezeCuts(source, draft, n - 1, was[n - 1]);
    if Fits(Packet(source, draft, source.handoff)) {
      next := turn;
    } else {
      next := n - 1;
      assert r != draft ==> r.sections[n - 1] != was[n - 1];
      assert r == draft || forall j :: 0 <= j < |was| && j != n - 1 ==>
        (r.sections[j] != was[j] <==> draft.sections[j] != was[j]);
      assert NamesChanges(was, r);
    }
  }

  lemma {:induction false} SqueezeDownKeeps(source: Source, draft: Draft, n: nat, turn: nat) returns (end: nat)
    requires n <= |draft.sections| && Squeezed(source, draft, n, turn)
    ensures Squeezed(source, SqueezeDown(source, draft, n), 0, end)
    decreases n
  {
    hide Packet;
    hide Squeezed;
    hide Squeeze;
    if n == 0 {
      end := turn;
    } else {
      SameCount(source, draft, n, turn);
      var next := SqueezeStep(source, draft, n, turn);
      end := SqueezeDownKeeps(source, Squeeze(source, draft, n - 1), n - 1, next);
    }
  }

  lemma SameCount(source: Source, draft: Draft, n: nat, turn: nat)
    requires Squeezed(source, draft, n, turn)
    ensures |draft.sections| == |source.sections|
  {
  }

  /**
   Sections are cut last first: one is shortened only if every later one is empty, and each shortened text is empty,
   a prefix of the marker or a source prefix with the marker. The packet then fits, or every section is empty.
   */
  lemma TrimmedIsLastFirst(source: Source) returns (turn: nat)
    ensures CutFromTheEnd(source.sections, Trimmed(source).sections, turn)
    ensures NamesChanges(source.sections, Trimmed(source))
    ensures Fits(Packet(source, Trimmed(source), source.handoff)) || EmptyFrom(Trimmed(source).sections, 0)
  {
    hide Packet;
    hide SqueezeDown;
    var start := Draft(source.sections, false, []);
    assert Squeezed(source, start, |source.sections|, |source.sections|);
    turn := SqueezeDownKeeps(source, start, |source.sections|, |source.sections|);
  }

  // ----- every cut is forced

  /**
   The draft before a section got its final text, with the sections before it untouched and those behind it final: it
   did not fit, and the cut took the need of its packet.
   */
  ghost predicate Forced(source: Source, after: seq<Section>, j: nat, before: Draft) {
    && |before.sections| == |after| == |source.sections| && j < |after|
    && (forall i :: 0 <= i < j ==> before.sections[i] == source.sections[i])
    && (forall i :: j < i < |after| ==> before.sections[i] == after[i])
    && (before.sections[j] == source.sections[j] || CutSection(source.sections[j], before.sections[j]))
    && !Fits(Packet(source, before, source.handoff)) && Body(before.sections[j]) != ""
    && TakesTheNeed(Size(Packet(source, before, source.handoff)), Body(before.sections[j]), Body(after[j]))
  }

  /** Squeezing stops at once, or with a cut that was forced. */
  lemma {:induction false} SqueezeIsForced(source: Source, draft: Draft, j: nat) returns (before: Draft)
    requires |draft.sections| == |source.sections| && j < |draft.sections|
    requires forall i :: 0 <= i < j ==> draft.sections[i] == source.sections[i]
    requires draft.sections[j] == source.sections[j] || CutSection(source.sections[j], draft.sections[j])
    requires Squeeze(source, draft, j) != draft
    ensures Forced(source, Squeeze(source, draft, j).sections, j, before)
    decreases Utf8Length(Body(draft.sections[j]))
  {
    hide Packet;
    hide Size;
    hide Cut;
    hide CutSection;
    hide TakesTheNeed;
    hide Utf8Length;
    CutIsShorter(source, draft, j);
    CutTakesTheNeed(source, draft, j);
    CutKeeps(source, draft, j);
    CutStaysCut(source, draft, j, source.sections[j]);
    var next := Cut(source, draft, j);
    if Squeeze(source, next, j) == next {
      before := draft;
    } else {
      before := SqueezeIsForced(source, next, j);
    }
  }

  lemma {:induction false} SqueezeDownKeepsRest(source: Source, draft: Draft, n: nat)
    requires n <= |draft.sections|
    ensures forall i :: n <= i < |draft.sections| ==> SqueezeDown(source, draft, n).sections[i] == draft.sections[i]
    decreases n
  {
    hide Packet;
    hide Squeeze;
    if n > 0 {
      SqueezeKeeps(source, draft, n - 1);
      SqueezeDownKeepsRest(source, Squeeze(source, draft, n - 1), n - 1);
    }
  }

  lemma {:induction false} SqueezeDownIsForced(source: Source, draft: Draft, n: nat, j: nat) returns (before: Draft)
    requires j < n <= |draft.sections| == |source.sections|
    requires forall i :: 0 <= i < n ==> draft.sections[i] == source.sections[i]
    requires SqueezeDown(source, draft, n).sections[j] != source.sections[j]
    ensures Forced(source, SqueezeDown(source, draft, n).sections, j, before)
    decreases n
  {
    hide Packet;
    hide Size;
    hide Squeeze;
    hide CutSection;
    hide TakesTheNeed;
    var next := Squeeze(source, draft, n - 1);
    SqueezeKeeps(source, draft, n - 1);
    SqueezeDownKeepsRest(source, next, n - 1);
    if j == n - 1 {
      before := SqueezeIsForced(source, draft, j);
    } else {
      before := SqueezeDownIsForced(source, next, n - 1, j);
    }
  }

  /**
   A section that is not what it was got its text by a forced cut: it is empty only if what stood there was shorter than
   the excess of the packet and 64 bytes more, and otherwise lacks just that much, or up to three bytes more.
   */
  lemma TrimmedIsForced(source: Source, j: nat) returns (before: Draft)
    requires j < |source.sections| && Trimmed(source).sections[j] != source.sections[j]
    ensures Forced(source, Trimmed(source).sections, j, before)
  {
    before := SqueezeDownIsForced(source, Draft(source.sections, false, []), |source.sections|, j);
  }

  // ----- the declared size

  /** Two numbers under one key differ in size by their digits. */
  lemma {:induction false} InsertMeasure(fields: seq<Field>, key: string, m: nat, n: nat, nodes: nat)
    ensures var a, b := MeasureFields(Insert(fields, key, Natural(m)), nodes),
      MeasureFields(Insert(fields, key, Natural(n)), nodes);
      && (a.None? <==> b.None?)
      && (a.Some? ==>
        && a.value.nodes == b.value.nodes && a.value.bytes >= Digits(m)
          && a.value.bytes + Digits(n) == b.value.bytes + Digits(m))
    decreases |fields|
  {
    hide Digits;
    hide Utf8Length;
    hide Text.Before;
    var a, b := Insert(fields, key, Natural(m)), Insert(fields, key, Natural(n));
    assert Measure(Natural(m), nodes + 1).Some? ==> Measure(Natural(m), nodes + 1).value == Count(Digits(m), nodes + 2);
    assert Measure(Natural(n), nodes + 1).Some? ==> Measure(Natural(n), nodes + 1).value == Count(Digits(n), nodes + 2);
    if fields == [] {
      assert a[1..] == b[1..] == [];
    } else if fields[0].key == key {
      assert a[1..] == b[1..] == fields[1..];
    } else if Text.Before(key, fields[0].key) {
      assert a[1..] == b[1..] == fields;
    } else {
      assert a[1..] == Insert(fields[1..], key, Natural(m)) && b[1..] == Insert(fields[1..], key, Natural(n));
      var first := Measure(fields[0].value, nodes + 1);
      if first.Some? { InsertMeasure(fields[1..], key, m, n, first.value.nodes); }
    }
  }

  /** The size of a packet without the digits it declares; None when the packet cannot be measured. */
  function Base(fields: seq<Field>): Option<nat> {
    var count := Measure(Object(Insert(fields, "bytes", Natural(0))), 0);
    if count.None? || count.value.bytes == 0 then None else Some(count.value.bytes - 1)
  }

  lemma DeclaredSize(fields: seq<Field>, n: nat)
    ensures var count := Measure(Object(Insert(fields, "bytes", Natural(n))), 0);
      if Base(fields).None? then count.None? else count.Some? && count.value.bytes == Base(fields).value + Digits(n)
  {
    hide Insert;
    InsertMeasure(fields, "bytes", 0, n, 1);
    assert Digits(0) == 1;
  }

  /** With a number declared, declaring again is the self-counting iteration; what cannot be measured stays so. */
  lemma {:induction false} DeclareSettles(fields: seq<Field>, n: nat, rounds: nat)
    ensures var r := Declare(Insert(fields, "bytes", Natural(n)), rounds);
      if Base(fields).None? then Measure(Object(r), 0).None?
      else r == Insert(fields, "bytes", Natural(Settle(Base(fields).value, n, rounds)))
    decreases rounds
  {
    hide Insert;
    hide Measure;
    hide Base;
    hide Digits;
    var v := Insert(fields, "bytes", Natural(n));
    DeclaredSize(fields, n);
    InsertGet(fields, "bytes", Natural(n), "bytes");
    var size := Size(Object(v));
    if rounds > 0 && n != size {
      InsertTwice(fields, "bytes", Natural(n), Natural(size));
      DeclareSettles(fields, size, rounds - 1);
    }
  }

  // ----- main result

  /**
   A packet that is handed out declares exactly the bytes of its keys and leaves, at most 16 KiB, in at most 10000 nodes
   and without a fraction; it is made from the trimmed sections, and without the handoff only if every section was
   emptied.  Otherwise even that packet has a fraction or too many nodes, or is too large.
   */
  lemma ResumeIsExact(source: Source)
    ensures var r := Resume(source); var trimmed := Trimmed(source);
      var packet := Packet(source, trimmed, FinalHandoff(source));
      && (r == TooManyNodes <==> !Whole(packet) || Nodes(packet) > MAX_NODES)
      && (r.Ok? ==>
        && r.packet == packet && packet.Object? && Whole(packet) && Nodes(packet) <= MAX_NODES
        && Get(packet.fields, "bytes") == Some(Natural(Utf8Length(Plain(packet))))
        && Utf8Length(Plain(packet)) <= MAX_BYTES)
      && (r.Ok? <==> Fits(Packet(source, trimmed, source.handoff)) || Fits(Packet(source, trimmed, Null)))
      && (!Fits(Packet(source, trimmed, source.handoff)) ==> EmptyFrom(trimmed.sections, 0))
  {
    hide Insert;
    hide Measure;
    hide Base;
    hide Digits;
    hide Fields;
    hide Trimmed;
    hide Settle;
    hide Plain;
    hide Nodes;
    hide Whole;
    hide Utf8Length;
    var fields := Fields(source, Trimmed(source), FinalHandoff(source));
    var _ := TrimmedIsLastFirst(source);
    DeclareSettles(fields, 0, 4);
    MeasureCounts(Packet(source, Trimmed(source), FinalHandoff(source)), 0);
    if Base(fields).Some? {
      var n := Settle(Base(fields).value, 0, 4);
      AnyStartSettles(Base(fields).value, 0, 4);
      DeclaredSize(fields, n);
      InsertGet(fields, "bytes", Natural(n), "bytes");
    }
  }

  // ----- what a packet shows

  lemma {:induction false} DeclareKeeps(fields: seq<Field>, rounds: nat, k: string)
    requires k != "bytes"
    ensures Get(Declare(fields, rounds), k) == Get(fields, k)
    decreases rounds
  {
    hide Measure;
    hide Insert;
    var size := Size(Object(fields));
    if rounds > 0 && Get(fields, "bytes") != Some(Natural(size)) {
      InsertGet(fields, "bytes", Natural(size), k);
      DeclareKeeps(Insert(fields, "bytes", Natural(size)), rounds - 1, k);
    }
  }

  /** Besides its size a packet holds the cut sections, the truncation marks, and the names to read next. */
  lemma PacketShows(source: Source, draft: Draft, handoff: Value, k: string)
    requires k != "bytes" && k != "context"
    ensures var shown := Get(Packet(source, draft, handoff).fields, k);
      if k == "content" then shown == Some(Object(Content(draft.sections)))
      else if k == "handoff" then shown == Some(handoff)
      else if k == "truncated" then shown == Some(Bool(draft.truncated))
      else if k == "truncatedMarker" then shown == Some(if draft.truncated then Text(MARKER) else Null)
      else if k == "readNext" then shown == Some(Array(Texts(AddNames(source.readNext, draft.names))))
      else shown == Get(source.fixed, k)
  {
    hide Insert;
    hide Get;
    hide Declare;
    hide Content;
    hide Included;
    var f0 := source.fixed;
    var f1 := Insert(f0, "content", Object(Content(draft.sections)));
    InsertGet(f0, "content", Object(Content(draft.sections)), k);
    var f2 := Insert(f1, "handoff", handoff);
    InsertGet(f1, "handoff", handoff, k);
    var context := Object(Insert([Field("includedBytes", Object(Included(draft.sections)))], "status",
      Text(source.status)));
    var f3 := Insert(f2, "context", context);
    InsertGet(f2, "context", context, k);
    var f4 := Insert(f3, "truncated", Bool(draft.truncated));
    InsertGet(f3, "truncated", Bool(draft.truncated), k);
    var mark := if draft.truncated then Text(MARKER) else Null;
    var f5 := Insert(f4, "truncatedMarker", mark);
    InsertGet(f4, "truncatedMarker", mark, k);
    var f6 := Insert(f5, "readNext", Array(Texts(AddNames(source.readNext, draft.names))));
    InsertGet(f5, "readNext", Array(Texts(AddNames(source.readNext, draft.names))), k);
    InsertGet(f6, "bytes", Natural(0), k);
    DeclareKeeps(Insert(f6, "bytes", Natural(0)), 4, k);
  }

  /** The content of a packet shows each section's text under its name. */
  lemma {:induction false} ContentShows(sections: seq<Section>, j: nat)
    requires j < |sections|
    requires forall a, b :: 0 <= a < b < |sections| ==> sections[a].name != sections[b].name
    ensures var text := sections[j].text;
      && Get(Content(sections), sections[j].name) == Some(if text.Some? then Text(text.value) else Null)
      && Get(Included(sections), sections[j].name) == Some(Natural(Utf8Length(Body(sections[j]))))
    decreases |sections|
  {
    hide Insert;
    hide Get;
    var fewer, last := sections[..|sections| - 1], sections[|sections| - 1];
    InsertGet(Content(fewer), last.name, if last.text.Some? then Text(last.text.value) else Null, sections[j].name);
    InsertGet(Included(fewer), last.name, Natural(Utf8Length(Body(last))), sections[j].name);
    if j < |fewer| {
      ContentShows(fewer, j);
    }
  }
}
