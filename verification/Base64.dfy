/** The strict base64 decoder against the canonical encoding of section 4 of RFC 4648. */
module Base64 {

  type Octet = bv8

  datatype Error = BadLength | BadSymbol | BadPadding | UnusedBits

  datatype Decoded = Ok(octets: seq<Octet>) | Err(error: Error)

  const PAD: Octet := 61

  // ----- the alphabet

  function Value(symbol: Octet): Octet {
    if 65 <= symbol <= 90 then symbol - 65
    else if 97 <= symbol <= 122 then symbol - 97 + 26
    else if 48 <= symbol <= 57 then symbol - 48 + 52
    else if symbol == 43 then 62
    else 63
  }

  predicate IsSymbol(symbol: Octet) {
    65 <= symbol <= 90 || 97 <= symbol <= 122 || 48 <= symbol <= 57 || symbol == 43 || symbol == 47
  }

  /** The character of a six-bit value. */
  function Symbol(value: Octet): Octet
    requires value < 64
  {
    if value < 26 then 65 + value
    else if value < 52 then 97 + (value - 26)
    else if value < 62 then 48 + (value - 52)
    else if value == 62 then 43
    else 47
  }

  lemma SymbolOfValue(symbol: Octet)
    requires IsSymbol(symbol)
    ensures Value(symbol) < 64 && Symbol(Value(symbol)) == symbol && symbol != PAD
  {
  }

  lemma ValueOfSymbol(value: Octet)
    requires value < 64
    ensures IsSymbol(Symbol(value)) && Value(Symbol(value)) == value && Symbol(value) != PAD
  {
  }

  // ----- decoding

  /** The octets that four sextets spell, and the bits that padding leaves unused. */
  function First(a: Octet, b: Octet): Octet { (a << 2) | (b >> 4) }
  function Second(b: Octet, c: Octet): Octet { (b << 4) | (c >> 2) }
  function Third(c: Octet, d: Octet): Octet { (c << 6) | d }
  predicate LowFour(b: Octet) { b & 0x0f != 0 }
  predicate LowTwo(c: Octet) { c & 0x03 != 0 }

  /** One group of four characters; only the last group may be padded. */
  function DecodeGroup(g: seq<Octet>, last: bool): Decoded
    requires |g| == 4
  {
    if !IsSymbol(g[0]) || !IsSymbol(g[1]) || (g[2] != PAD && !IsSymbol(g[2]))
      || (g[3] != PAD && !IsSymbol(g[3])) then Err(BadSymbol)
    else
      var a, b := Value(g[0]), Value(g[1]);
      var c := if g[2] == PAD then 0 else Value(g[2]);
      var d := if g[3] == PAD then 0 else Value(g[3]);
      if (!last && (g[2] == PAD || g[3] == PAD)) || (g[2] == PAD && g[3] != PAD) then Err(BadPadding)
      else if (g[2] == PAD && LowFour(b)) || (g[3] == PAD && LowTwo(c)) then Err(UnusedBits)
      else
        Ok([First(a, b)] + (if g[2] == PAD then [] else [Second(b, c)]) + (if g[3] == PAD then [] else [Third(c, d)]))
  }

  function DecodeGroups(s: seq<Octet>): Decoded
    requires |s| % 4 == 0
  {
    if s == [] then Ok([])
    else
      var first := DecodeGroup(s[..4], |s| == 4);
      if first.Err? then first
      else
        var rest := DecodeGroups(s[4..]);
        if rest.Err? then rest else Ok(first.octets + rest.octets)
  }

  function Decode(s: seq<Octet>): Decoded {
    if |s| % 4 != 0 then Err(BadLength) else DecodeGroups(s)
  }

  /** What the decoder ends with after `output` when the groups from i on are still to come. */
  ghost function Ending(output: seq<Octet>, s: seq<Octet>, i: nat): Decoded
    requires i <= |s| && i % 4 == 0 && |s| % 4 == 0
  {
    var rest := DecodeGroups(s[i..]);
    if rest.Err? then rest else Ok(output + rest.octets)
  }

  lemma NextGroup(output: seq<Octet>, s: seq<Octet>, i: nat)
    requires i < |s| && i % 4 == 0 && |s| % 4 == 0
    ensures var group := DecodeGroup(s[i..i + 4], i + 4 == |s|);
      Ending(output, s, i) == if group.Err? then group else Ending(output + group.octets, s, i + 4)
  {
    hide DecodeGroup;
    assert s[i..][..4] == s[i..i + 4] && s[i..][4..] == s[i + 4..];
    var group, rest := DecodeGroup(s[i..i + 4], i + 4 == |s|), DecodeGroups(s[i + 4..]);
    assert group.Ok? && rest.Ok? ==> output + (group.octets + rest.octets) == (output + group.octets) + rest.octets;
  }

  lemma NoMoreGroups(output: seq<Octet>, s: seq<Octet>)
    requires |s| % 4 == 0
    ensures Ending(output, s, |s|) == Ok(output)
    ensures Ending([], s, 0) == DecodeGroups(s)
  {
    hide DecodeGroup;
    assert s[|s|..] == [] && output + [] == output && s[0..] == s;
    assert DecodeGroups(s).Ok? ==> [] + DecodeGroups(s).octets == DecodeGroups(s).octets;
  }

  /** The decoder loop: it reports the first bad group, or everything it has pushed. */
  method DecodeBase64(s: seq<Octet>) returns (result: Decoded)
    ensures result == Decode(s)
  {
    hide DecodeGroup;
    hide DecodeGroups;
    hide Ending;
    if |s| % 4 != 0 { return Err(BadLength); }
    var output: seq<Octet> := [];
    var i := 0;
    NoMoreGroups(output, s);
    while i < |s|
      invariant 0 <= i <= |s| && i % 4 == 0
      invariant Ending(output, s, i) == Decode(s)
    {
      NextGroup(output, s, i);
      var group := DecodeGroup(s[i..i + 4], i + 4 == |s|);
      if group.Err? { return group; }
      output := output + group.octets;
      i := i + 4;
    }
    NoMoreGroups(output, s);
    result := Ok(output);
  }

  // ----- the canonical encoding

  /** Twenty-four bits as four groups of six. */
  function Cut(x: Octet, y: Octet, z: Octet): (r: (Octet, Octet, Octet, Octet))
    ensures r.0 < 64 && r.1 < 64 && r.2 < 64 && r.3 < 64
  {
    (x >> 2, ((x & 0x03) << 4) | (y >> 4), ((y & 0x0f) << 2) | (z >> 6), z & 0x3f)
  }

  /** Missing octets count as zero bits, and groups without any bit of the input become padding. */
  function EncodeGroup(x: seq<Octet>): (g: seq<Octet>)
    requires 1 <= |x| <= 3
    ensures |g| == 4
  {
    var (a, b, c, d) := Cut(x[0], if |x| > 1 then x[1] else 0, if |x| > 2 then x[2] else 0);
    [Symbol(a), Symbol(b), if |x| > 1 then Symbol(c) else PAD, if |x| > 2 then Symbol(d) else PAD]
  }

  function Encode(x: seq<Octet>): (s: seq<Octet>)
    ensures |s| % 4 == 0 && (s == [] <==> x == [])
  {
    if x == [] then []
    else if |x| <= 3 then EncodeGroup(x)
    else EncodeGroup(x[..3]) + Encode(x[3..])
  }

  /** Cutting three octets into four sextets and joining them again. */
  lemma CutThenJoin(x: Octet, y: Octet, z: Octet)
    ensures var (a, b, c, d) := Cut(x, y, z);
      && First(a, b) == x && Second(b, c) == y && Third(c, d) == z
      && (y == 0 ==> !LowFour(b)) && (z == 0 ==> !LowTwo(c))
  {
  }

  /** Joining four sextets into three octets and cutting them again. */
  lemma JoinThenCut(a: Octet, b: Octet, c: Octet, d: Octet)
    requires a < 64 && b < 64 && c < 64 && d < 64
    ensures var x, y, z := First(a, b), Second(b, c), Third(c, d);
      && Cut(x, y, z) == (a, b, c, d)
      && (!LowFour(b) && c == 0 ==> y == 0) && (!LowTwo(c) && d == 0 ==> z == 0)
  {
  }

  /** Decoding the first n symbols of four sextets, the rest being padding. */
  lemma DecodeSextets(a: Octet, b: Octet, c: Octet, d: Octet, n: nat, last: bool)
    requires a < 64 && b < 64 && c < 64 && d < 64
    requires 2 <= n <= 4 && (n == 4 || last)
    requires (n < 3 ==> !LowFour(b)) && (n == 3 ==> !LowTwo(c))
    ensures DecodeGroup([Symbol(a), Symbol(b), if n > 2 then Symbol(c) else PAD, if n > 3 then Symbol(d) else PAD],
      last)
            == Ok([First(a, b)] + (if n > 2 then [Second(b, c)] else []) + (if n > 3 then [Third(c, d)] else []))
  {
    assert !LowTwo(0);
    hide First;
    hide Second;
    hide Third;
    hide LowFour;
    hide LowTwo;
    ValueOfSymbol(a);
    ValueOfSymbol(b);
    ValueOfSymbol(c);
    ValueOfSymbol(d);
    hide Symbol;
    hide Value;
    hide IsSymbol;
  }

  lemma GroupRoundTrip(x: seq<Octet>, last: bool)
    requires 1 <= |x| <= 3 && (|x| == 3 || last)
    ensures DecodeGroup(EncodeGroup(x), last) == Ok(x)
  {
    hide DecodeGroup;
    hide Symbol;
    var y := if |x| > 1 then x[1] else 0;
    var z := if |x| > 2 then x[2] else 0;
    var (a, b, c, d) := Cut(x[0], y, z);
    CutThenJoin(x[0], y, z);
    DecodeSextets(a, b, c, d, |x| + 1, last);
    hide Cut;
    hide First;
    hide Second;
    hide Third;
    hide LowFour;
    hide LowTwo;
  }

  /** Encoding the octets of the first n of four sextets, the rest being zero. */
  lemma EncodeSextets(a: Octet, b: Octet, c: Octet, d: Octet, n: nat)
    requires a < 64 && b < 64 && c < 64 && d < 64 && 2 <= n <= 4
    requires (n == 2 ==> !LowFour(b) && c == 0) && (n < 4 ==> !LowTwo(c) && d == 0)
    ensures EncodeGroup([First(a, b)] + (if n > 2 then [Second(b, c)] else []) + (if n > 3 then [Third(c, d)] else []))
            == [Symbol(a), Symbol(b), if n > 2 then Symbol(c) else PAD, if n > 3 then Symbol(d) else PAD]
  {
    JoinThenCut(a, b, c, d);
    hide Cut;
    hide First;
    hide Second;
    hide Third;
    hide LowFour;
    hide LowTwo;
    hide Symbol;
  }

  /** The sextets of an accepted group, and how many of them its symbols spell. */
  lemma GroupSextets(g: seq<Octet>, last: bool) returns (a: Octet, b: Octet, c: Octet, d: Octet, n: nat)
    requires |g| == 4 && DecodeGroup(g, last).Ok?
    ensures a < 64 && b < 64 && c < 64 && d < 64 && 2 <= n <= 4 && (!last ==> n == 4)
    ensures (n == 2 ==> !LowFour(b) && c == 0) && (n < 4 ==> !LowTwo(c) && d == 0)
    ensures g == [Symbol(a), Symbol(b), if n > 2 then Symbol(c) else PAD, if n > 3 then Symbol(d) else PAD]
    ensures DecodeGroup(g, last).octets
            == [First(a, b)] + (if n > 2 then [Second(b, c)] else []) + (if n > 3 then [Third(c, d)] else [])
  {
    a, b := Value(g[0]), Value(g[1]);
    SymbolOfValue(g[0]);
    SymbolOfValue(g[1]);
    if g[2] == PAD {
      c, d, n := 0, 0, 2;
      assert !LowTwo(0);
    } else if g[3] == PAD {
      SymbolOfValue(g[2]);
      c, d, n := Value(g[2]), 0, 3;
    } else {
      SymbolOfValue(g[2]);
      SymbolOfValue(g[3]);
      c, d, n := Value(g[2]), Value(g[3]), 4;
    }
    hide Symbol;
    hide Value;
    hide IsSymbol;
    hide First;
    hide Second;
    hide Third;
    hide LowFour;
    hide LowTwo;
  }

  /** An accepted group is the encoding of what it decodes to; an unpadded group has three octets. */
  lemma GroupIsCanonical(g: seq<Octet>, last: bool)
    requires |g| == 4 && DecodeGroup(g, last).Ok?
    ensures var x := DecodeGroup(g, last).octets;
      1 <= |x| <= 3 && EncodeGroup(x) == g && (!last ==> |x| == 3)
  {
    hide EncodeGroup;
    hide Symbol;
    hide LowFour;
    hide LowTwo;
    var a, b, c, d, n := GroupSextets(g, last);
    EncodeSextets(a, b, c, d, n);
    hide DecodeGroup;
    hide First;
    hide Second;
    hide Third;
  }

  // ----- main results

  /** Encoding then decoding gives the octets back. */
  lemma {:induction false} DecodeOfEncode(x: seq<Octet>)
    ensures Decode(Encode(x)) == Ok(x)
    decreases |x|
  {
    hide DecodeGroup;
    hide EncodeGroup;
    var s := Encode(x);
    if x == [] {
    } else if |x| <= 3 {
      GroupRoundTrip(x, true);
      assert s[..4] == s && s[4..] == [];
      assert DecodeGroups([]) == Ok([]) && x + [] == x;
    } else {
      var head, rest := EncodeGroup(x[..3]), Encode(x[3..]);
      assert s[..4] == head && s[4..] == rest && rest != [];
      GroupRoundTrip(x[..3], false);
      DecodeOfEncode(x[3..]);
      assert x[..3] + x[3..] == x;
    }
  }

  /** Whatever decodes is the canonical encoding of its value. */
  lemma {:induction false} EncodeOfDecode(s: seq<Octet>)
    requires |s| % 4 == 0 && DecodeGroups(s).Ok?
    ensures Encode(DecodeGroups(s).octets) == s
    decreases |s|
  {
    hide DecodeGroup;
    hide EncodeGroup;
    if s != [] {
      var first := DecodeGroup(s[..4], |s| == 4);
      GroupIsCanonical(s[..4], |s| == 4);
      EncodeOfDecode(s[4..]);
      var rest := DecodeGroups(s[4..]);
      assert s == s[..4] + s[4..];
      if |s| == 4 {
        assert first.octets + rest.octets == first.octets;
      } else {
        var x := first.octets + rest.octets;
        assert x[..3] == first.octets && x[3..] == rest.octets;
      }
    }
  }

  /** Accepted strings and octet sequences are in one-to-one correspondence. */
  lemma DecodeIffCanonical(s: seq<Octet>, x: seq<Octet>)
    ensures Decode(s) == Ok(x) <==> s == Encode(x)
  {
    DecodeOfEncode(x);
    if Decode(s).Ok? {
      EncodeOfDecode(s);
    }
  }

  // ----- known encodings, and what is reported

  /** Two test vectors that use letters of both cases, digits, both signs and padding. */
  lemma KnownEncodings()
    ensures Encode([102, 111, 111, 98, 97, 114]) == [90, 109, 57, 118, 89, 109, 70, 121]
    ensures Encode([251, 255, 191]) == [43, 47, 43, 47]
    ensures Encode([251, 240]) == [43, 47, 65, 61]
    ensures Encode([3]) == [65, 119, 61, 61]
  {
    var x: seq<Octet> := [102, 111, 111, 98, 97, 114];
    assert x[..3] == [102, 111, 111] && x[3..] == [98, 97, 114];
    assert Encode(x) == EncodeGroup(x[..3]) + Encode(x[3..]);
    assert EncodeGroup([102, 111, 111]) == [90, 109, 57, 118];
    assert EncodeGroup([98, 97, 114]) == [89, 109, 70, 121];
    assert EncodeGroup([251, 255, 191]) == [43, 47, 43, 47];
    assert EncodeGroup([251, 240]) == [43, 47, 65, 61];
    assert EncodeGroup([3]) == [65, 119, 61, 61];
  }

  predicate PadAt(g: seq<Octet>, i: nat)
    requires i < |g|
  {
    i >= 2 && g[i] == PAD
  }

  ghost predicate AllSymbols(g: seq<Octet>)
    requires |g| == 4
  {
    forall i :: 0 <= i < 4 ==> IsSymbol(g[i]) || PadAt(g, i)
  }

  ghost predicate WellPadded(g: seq<Octet>, last: bool)
    requires |g| == 4
  {
    (last || !(PadAt(g, 2) || PadAt(g, 3))) && (PadAt(g, 2) ==> PadAt(g, 3))
  }

  ghost predicate IsEncoding(g: seq<Octet>) {
    exists x: seq<Octet> :: 1 <= |x| <= 3 && EncodeGroup(x) == g
  }

  /** What is wrong with a group, the first of these that applies. */
  ghost predicate HasFlaw(g: seq<Octet>, last: bool, e: Error)
    requires |g| == 4
  {
    match e
    case BadLength => false
    case BadSymbol => !AllSymbols(g)
    case BadPadding => AllSymbols(g) && !WellPadded(g, last)
    case UnusedBits => AllSymbols(g) && WellPadded(g, last) && !IsEncoding(g)
  }

  lemma GroupErrors(g: seq<Octet>, last: bool)
    requires |g| == 4
    ensures DecodeGroup(g, last) == Err(BadSymbol) <==> !AllSymbols(g)
    ensures DecodeGroup(g, last) == Err(BadPadding) <==> AllSymbols(g) && !WellPadded(g, last)
    ensures DecodeGroup(g, last) != Err(BadLength)
  {
    assert AllSymbols(g) <==> IsSymbol(g[0]) && IsSymbol(g[1]) && (IsSymbol(g[2]) || g[2] == PAD)
                              && (IsSymbol(g[3]) || g[3] == PAD);
    hide AllSymbols;
    hide IsSymbol;
    hide Value;
    hide First;
    hide Second;
    hide Third;
    hide LowFour;
    hide LowTwo;
  }

  lemma EncodingIsDecoded(g: seq<Octet>, last: bool, x: seq<Octet>)
    requires 1 <= |x| <= 3 && EncodeGroup(x) == g && WellPadded(g, last)
    ensures DecodeGroup(g, last).Ok?
  {
    assert |x| < 3 ==> PadAt(g, 3);
    GroupRoundTrip(x, last);
    hide DecodeGroup;
  }

  lemma GroupFlaw(g: seq<Octet>, last: bool, e: Error)
    requires |g| == 4
    ensures DecodeGroup(g, last) == Err(e) <==> HasFlaw(g, last, e)
  {
    hide DecodeGroup;
    hide AllSymbols;
    hide WellPadded;
    hide EncodeGroup;
    GroupErrors(g, last);
    if DecodeGroup(g, last).Ok? {
      GroupIsCanonical(g, last);
      assert IsEncoding(g);
    } else if WellPadded(g, last) && IsEncoding(g) {
      var x: seq<Octet> :| 1 <= |x| <= 3 && EncodeGroup(x) == g;
      EncodingIsDecoded(g, last, x);
    }
  }

  /** An error is that of the first group with a flaw, unless the length is no multiple of four. */
  lemma {:induction false} FirstFlaw(s: seq<Octet>) returns (k: nat)
    requires |s| % 4 == 0 && Decode(s).Err?
    ensures 4 * k < |s| && HasFlaw(s[4 * k..4 * k + 4], 4 * k + 4 == |s|, Decode(s).error)
    ensures forall j :: 0 <= j < k ==> DecodeGroup(s[4 * j..4 * j + 4], false).Ok?
    decreases |s|
  {
    hide DecodeGroup;
    hide HasFlaw;
    var first := DecodeGroup(s[..4], |s| == 4);
    if first.Err? {
      k := 0;
      GroupFlaw(s[..4], |s| == 4, first.error);
    } else {
      k := FirstFlaw(s[4..]);
      k := k + 1;
      assert s[4..][4 * (k - 1)..4 * (k - 1) + 4] == s[4 * k..4 * k + 4];
      forall j | 0 <= j < k ensures DecodeGroup(s[4 * j..4 * j + 4], false).Ok? {
        if j > 0 { assert s[4..][4 * (j - 1)..4 * (j - 1) + 4] == s[4 * j..4 * j + 4]; }
      }
    }
  }
}
