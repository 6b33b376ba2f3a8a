/** The bytes that a frozen package feeds to its digest, and why they identify the package. */
module FrozenDigest {
  import opened Lexicographic

  newtype byte = x: int | 0 <= x < 256

  /** One regular file of a package directory. */
  datatype FrozenFile = FrozenFile(path: seq<byte>, executable: bool, bytes: seq<byte>)

  const U64_LIMIT := 0x1_0000_0000_0000_0000

  /** Lengths are stored as unsigned 64-bit integers. */
  predicate Addressable(file: FrozenFile) {
    |file.path| < U64_LIMIT && |file.bytes| < U64_LIMIT
  }

  ghost predicate AllAddressable(files: seq<FrozenFile>) {
    forall i :: 0 <= i < |files| ==> Addressable(files[i])
  }

  /** The `width` low bytes of n, most significant first. */
  function BigEndian(n: nat, width: nat): (s: seq<byte>)
    ensures |s| == width
  {
    if width == 0 then [] else BigEndian(n / 256, width - 1) + [(n % 256) as byte]
  }

  /** The number that bytes spell, most significant first. */
  function Number(s: seq<byte>): nat {
    if s == [] then 0 else Number(s[..|s| - 1]) * 256 + s[|s| - 1] as nat
  }

  lemma {:induction false} BigEndianSpells(n: nat, width: nat)
    ensures n < Power256(width) ==> Number(BigEndian(n, width)) == n
    decreases width
  {
    if width > 0 {
      BigEndianSpells(n / 256, width - 1);
      assert BigEndian(n, width)[..width - 1] == BigEndian(n / 256, width - 1);
    }
  }

  function Power256(width: nat): nat {
    if width == 0 then 1 else 256 * Power256(width - 1)
  }

  lemma {:induction false} BigEndianInjective(m: nat, n: nat, width: nat)
    requires m < Power256(width) && n < Power256(width)
    requires BigEndian(m, width) == BigEndian(n, width)
    ensures m == n
  {
    if width != 0 {
      var a, b := BigEndian(m, width), BigEndian(n, width);
      assert a[..width - 1] == BigEndian(m / 256, width - 1);
      assert b[..width - 1] == BigEndian(n / 256, width - 1);
      assert a[width - 1] == b[width - 1];
      BigEndianInjective(m / 256, n / 256, width - 1);
    }
  }

  function Length64(s: seq<byte>): (r: seq<byte>)
    ensures |r| == 8
  {
    BigEndian(|s|, 8)
  }

  function Flag(executable: bool): byte {
    if executable then 1 else 0
  }

  /** Path length, path, executable flag, content length, content. */
  function Frame(file: FrozenFile): seq<byte> {
    Length64(file.path) + (file.path + ([Flag(file.executable)] + (Length64(file.bytes) + file.bytes)))
  }

  /** Where the parts of a frame stand, and what they say. */
  lemma FrameLayout(file: FrozenFile)
    requires Addressable(file)
    ensures var f, p := Frame(file), |file.path|;
      && |f| == 17 + p + |file.bytes| && Number(f[..8]) == p && f[8..8 + p] == file.path
      && f[8 + p] == (if file.executable then 1 else 0)
      && Number(f[9 + p..17 + p]) == |file.bytes| && f[17 + p..] == file.bytes
  {
    assert Power256(8) == U64_LIMIT;
    BigEndianSpells(|file.path|, 8);
    BigEndianSpells(|file.bytes|, 8);
    hide BigEndian;
    hide Number;
    var f, p := Frame(file), |file.path|;
    assert f[..8] == Length64(file.path) && f[9 + p..17 + p] == Length64(file.bytes);
  }

  function Framed(files: seq<FrozenFile>): seq<byte> {
    if files == [] then [] else Frame(files[0]) + Framed(files[1..])
  }

  lemma CancelPrefix(a: seq<byte>, x: seq<byte>, b: seq<byte>, y: seq<byte>)
    requires a + x == b + y && |a| == |b|
    ensures a == b && x == y
  {
    assert a == (a + x)[..|a|] == (b + y)[..|b|] == b;
    assert x == (a + x)[|a|..] == (b + y)[|b|..] == y;
  }

  lemma Length64Injective(s: seq<byte>, t: seq<byte>)
    requires |s| < U64_LIMIT && |t| < U64_LIMIT && Length64(s) == Length64(t)
    ensures |s| == |t|
  {
    assert Power256(8) == U64_LIMIT;
    BigEndianInjective(|s|, |t|, 8);
  }

  /** A length-prefixed text can be read back from the front of any byte string. */
  lemma SizedPrefix(s: seq<byte>, x: seq<byte>, t: seq<byte>, y: seq<byte>)
    requires |s| < U64_LIMIT && |t| < U64_LIMIT
    requires Length64(s) + (s + x) == Length64(t) + (t + y)
    ensures s == t && x == y
  {
    CancelPrefix(Length64(s), s + x, Length64(t), t + y);
    Length64Injective(s, t);
    CancelPrefix(s, x, t, y);
  }

  /** No frame is a proper prefix of another, whatever follows. */
  lemma FrameIsPrefixFree(f: FrozenFile, x: seq<byte>, g: FrozenFile, y: seq<byte>)
    requires Addressable(f) && Addressable(g)
    requires Frame(f) + x == Frame(g) + y
    ensures f == g && x == y
  {
    hide Length64;
    hide BigEndian;
    var fBody := Length64(f.bytes) + (f.bytes + x);
    var gBody := Length64(g.bytes) + (g.bytes + y);
    assert Frame(f) + x == Length64(f.path) + (f.path + ([Flag(f.executable)] + fBody));
    assert Frame(g) + y == Length64(g.path) + (g.path + ([Flag(g.executable)] + gBody));
    SizedPrefix(f.path, [Flag(f.executable)] + fBody, g.path, [Flag(g.executable)] + gBody);
    CancelPrefix([Flag(f.executable)], fBody, [Flag(g.executable)], gBody);
    SizedPrefix(f.bytes, x, g.bytes, y);
  }

  /** The framing is injective: equal digest inputs come from equal file lists. */
  lemma {:induction false} FramedInjective(a: seq<FrozenFile>, b: seq<FrozenFile>)
    requires AllAddressable(a) && AllAddressable(b)
    requires Framed(a) == Framed(b)
    ensures a == b
  {
    assert forall files :: files != [] ==> |Framed(files)| >= 8;
    if a != [] && b != [] {
      FrameIsPrefixFree(a[0], Framed(a[1..]), b[0], Framed(b[1..]));
      FramedInjective(a[1..], b[1..]);
      assert a == [a[0]] + a[1..] && b == [b[0]] + b[1..];
    }
  }

  predicate ByteLess(a: byte, b: byte) {
    a < b
  }

  /** Packages are sorted by path, byte-wise, and no path occurs twice. */
  ghost predicate SortedByPath(files: seq<FrozenFile>) {
    forall i, j :: 0 <= i < j < |files| ==> Less(ByteLess, files[i].path, files[j].path)
  }

  /** Two sorted packages with the same files are the same list. */
  lemma {:induction false} SortedListsAgree(a: seq<FrozenFile>, b: seq<FrozenFile>)
    requires SortedByPath(a) && SortedByPath(b)
    requires forall f :: f in a <==> f in b
    ensures a == b
  {
    assert b != [] ==> b[0] in b;
    if a != [] {
      assert a[0] in b;
      var i :| 0 <= i < |b| && b[i] == a[0];
      assert b[0] in a;
      var j :| 0 <= j < |a| && a[j] == b[0];
      LessTotal(ByteLess, a[0].path, b[0].path);
      assert i == 0 && j == 0;
      forall f ensures f in a[1..] <==> f in b[1..] {
        LessTotal(ByteLess, a[0].path, a[0].path);
        if f in a[1..] { assert f in a; assert f in b; }
        if f in b[1..] { assert f in b; assert f in a; }
      }
      SortedListsAgree(a[1..], b[1..]);
      assert a == [a[0]] + a[1..] && b == [b[0]] + b[1..];
    }
  }

  /** What the digest input says: exactly the set of files, whatever order they were collected in. */
  lemma DigestInputIdentifiesFiles(a: seq<FrozenFile>, b: seq<FrozenFile>)
    requires AllAddressable(a) && AllAddressable(b)
    requires SortedByPath(a) && SortedByPath(b)
    ensures Framed(a) == Framed(b) <==> (forall f :: f in a <==> f in b)
  {
    if Framed(a) == Framed(b) {
      FramedInjective(a, b);
    }
    if forall f :: f in a <==> f in b {
      SortedListsAgree(a, b);
    }
  }
}
