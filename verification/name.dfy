/**
 * Identifier names: an owned string compared by content, ordered by the
 * length of its UTF-8 encoding first and then bytewise, and hashed with
 * 32-bit FNV-1a over its characters.
 */
module Name {

  datatype AstName = AstName(value: string)

  /** FNV-1a offset basis. */
  const FnvOffsetBasis: bv32 := 2166136261
  /** FNV-1a prime. */
  const FnvPrime: bv32 := 16777619

  /** Does the name hold exactly the text `s`? */
  predicate EqStr(n: AstName, s: string) {
    n.value == s
  }

  // ---------------------------------------------------------------------------
  // Ordering
  // ---------------------------------------------------------------------------

  /** A byte of encoded text. */
  newtype byte = b: int | 0 <= b < 0x100

  /** The UTF-8 encoding of one character: one to four bytes, by the size of its scalar value. */
  function Utf8Char(c: char): (r: seq<byte>)
    ensures 1 <= |r| <= 4
    ensures |r| == 1 <==> c as int < 0x80
    ensures |r| == 1 ==> r[0] as int == c as int
  {
    var v := c as int;
    if v < 0x80 then [v as byte]
    else if v < 0x800 then [(0xC0 + v / 0x40) as byte, (0x80 + v % 0x40) as byte]
    else if v < 0x1_0000 then
      [(0xE0 + v / 0x1000) as byte, (0x80 + v / 0x40 % 0x40) as byte, (0x80 + v % 0x40) as byte]
    else
      [(0xF0 + v / 0x4_0000) as byte, (0x80 + v / 0x1000 % 0x40) as byte,
       (0x80 + v / 0x40 % 0x40) as byte, (0x80 + v % 0x40) as byte]
  }

  /** The UTF-8 encoding of a text (`as_bytes`). */
  function Utf8(s: string): (r: seq<byte>)
    ensures |r| >= |s|
  {
    if s == [] then [] else Utf8Char(s[0]) + Utf8(s[1..])
  }

  /** The first byte of an encoded character tells its length. */
  lemma LeadByte(c: char)
    ensures var r := Utf8Char(c);
            && (|r| == 1 <==> r[0] < 0x80)
            && (|r| == 2 <==> 0xC0 <= r[0] < 0xE0)
            && (|r| == 3 <==> 0xE0 <= r[0] < 0xF0)
            && (|r| == 4 <==> 0xF0 <= r[0] < 0xF8)
  {
  }

  /** The scalar value an encoded character carries: its lead byte's payload bits, then six bits per continuation byte. */
  function Decode(r: seq<byte>): int
    requires 1 <= |r| <= 4
  {
    if |r| == 1 then r[0] as int
    else if |r| == 2 then (r[0] as int - 0xC0) * 0x40 + (r[1] as int - 0x80)
    else if |r| == 3 then ((r[0] as int - 0xE0) * 0x40 + (r[1] as int - 0x80)) * 0x40 + (r[2] as int - 0x80)
    else (((r[0] as int - 0xF0) * 0x40 + (r[1] as int - 0x80)) * 0x40 + (r[2] as int - 0x80)) * 0x40 + (r[3] as int - 0x80)
  }

  lemma DecodeTwo(v: int)
    requires 0x80 <= v < 0x800
    ensures (0xC0 + v / 0x40 - 0xC0) * 0x40 + (0x80 + v % 0x40 - 0x80) == v
  {
  }

  /** Dividing by 64 twice is dividing by 4096. */
  lemma DivTwice(v: nat)
    ensures v / 0x40 / 0x40 == v / 0x1000
    ensures v / 0x40 == v / 0x1000 * 0x40 + v / 0x40 % 0x40
  {
    var q, r := v / 0x1000, v % 0x1000;
    assert v == q * 0x1000 + r;
    assert v / 0x40 == q * 0x40 + r / 0x40;
  }

  lemma DecodeThree(v: int)
    requires 0x800 <= v < 0x1_0000
    ensures ((v / 0x1000) * 0x40 + v / 0x40 % 0x40) * 0x40 + v % 0x40 == v
  {
    DivTwice(v);
  }

  lemma DecodeFour(v: int)
    requires 0x1_0000 <= v < 0x11_0000
    ensures (((v / 0x4_0000) * 0x40 + v / 0x1000 % 0x40) * 0x40 + v / 0x40 % 0x40) * 0x40 + v % 0x40 == v
  {
    DivTwice(v);
    DivTwice(v / 0x40);
    assert v / 0x40 / 0x1000 == v / 0x4_0000;
  }

  /** Decoding an encoded character gives back its scalar value. */
  lemma DecodeUtf8Char(c: char)
    ensures Decode(Utf8Char(c)) == c as int
  {
    var v := c as int;
    if v < 0x80 {
    } else if v < 0x800 {
      DecodeTwo(v);
    } else if v < 0x1_0000 {
      DecodeThree(v);
    } else {
      DecodeFour(v);
    }
  }

  /** The bytes of an encoded character determine it. */
  lemma Utf8CharInjective(x: char, y: char)
    requires Utf8Char(x) == Utf8Char(y)
    ensures x == y
  {
    DecodeUtf8Char(x);
    DecodeUtf8Char(y);
  }

  lemma {:induction false} Utf8Injective(a: string, b: string)
    requires Utf8(a) == Utf8(b)
    ensures a == b
  {
    if a != [] && b != [] {
      var ra, rb := Utf8Char(a[0]), Utf8Char(b[0]);
      LeadByte(a[0]);
      LeadByte(b[0]);
      assert ra[0] == Utf8(a)[0] == Utf8(b)[0] == rb[0];
      assert |ra| == |rb|;
      assert Utf8(a)[..|ra|] == ra && Utf8(b)[..|rb|] == rb;
      Utf8CharInjective(a[0], b[0]);
      assert Utf8(a[1..]) == Utf8(a)[|ra|..] == Utf8(b)[|rb|..] == Utf8(b[1..]);
      Utf8Injective(a[1..], b[1..]);
      assert a == [a[0]] + a[1..] && b == [b[0]] + b[1..];
    }
  }

  /** Text in the ASCII range is encoded one byte per character, each byte the character's code. */
  lemma {:induction false} Utf8Ascii(s: string)
    requires forall k :: 0 <= k < |s| ==> s[k] as int < 0x80
    ensures |Utf8(s)| == |s|
    ensures forall k :: 0 <= k < |s| ==> Utf8(s)[k] as int == s[k] as int
  {
    if s != [] {
      Utf8Ascii(s[1..]);
      assert forall k :: 1 <= k < |s| ==> Utf8(s)[k] == Utf8(s[1..])[k - 1];
    }
  }


  /**
   * The scan of two equally long byte strings from index `i`: the first
   * differing byte decides, and strings that agree everywhere are not less.
   */
  function ScanLess(a: seq<byte>, b: seq<byte>, i: nat): bool
    requires |a| == |b| && i <= |a|
    decreases |a| - i
  {
    if i == |a| then false
    else if a[i] < b[i] then true
    else if a[i] > b[i] then false
    else ScanLess(a, b, i + 1)
  }

  /**
   * `lt`: a name whose encoding is shorter is less; encodings of equal length
   * compare byte by byte. Lengths are byte lengths, so a name of two ASCII
   * characters and a name of one two-byte character are compared bytewise.
   */
  predicate Lt(a: AstName, b: AstName) {
    var x, y := Utf8(a.value), Utf8(b.value);
    if |x| < |y| then true
    else if |x| > |y| then false
    else ScanLess(x, y, 0)
  }

  /** The reference reading of the scan: some index is the first difference and is smaller in `a`. */
  ghost predicate FirstDifferenceLess(a: seq<byte>, b: seq<byte>, i: nat)
    requires |a| == |b| && i <= |a|
  {
    exists k :: i <= k < |a| && a[i..k] == b[i..k] && a[k] < b[k]
  }

  lemma {:induction false} ScanLessMeaning(a: seq<byte>, b: seq<byte>, i: nat)
    requires |a| == |b| && i <= |a|
    ensures ScanLess(a, b, i) <==> FirstDifferenceLess(a, b, i)
    decreases |a| - i
  {
    if i == |a| {
    } else if a[i] < b[i] {
      assert a[i..i] == b[i..i];
    } else if a[i] > b[i] {
    } else {
      ScanLessMeaning(a, b, i + 1);
      if FirstDifferenceLess(a, b, i) {
        var k :| i <= k < |a| && a[i..k] == b[i..k] && a[k] < b[k];
        assert k != i;
        assert a[i + 1..k] == a[i..k][1..] && b[i + 1..k] == b[i..k][1..];
        assert FirstDifferenceLess(a, b, i + 1);
      }
      if FirstDifferenceLess(a, b, i + 1) {
        var k :| i + 1 <= k < |a| && a[i + 1..k] == b[i + 1..k] && a[k] < b[k];
        assert a[i..k] == [a[i]] + a[i + 1..k];
        assert b[i..k] == [b[i]] + b[i + 1..k];
      }
    }
  }

  /**
   * `lt` orders by encoded length first: a name with a strictly shorter
   * encoding is always less, a longer one never; at equal length the first
   * differing byte decides.
   */
  lemma LtLengthFirst(a: AstName, b: AstName)
    ensures var x, y := Utf8(a.value), Utf8(b.value);
            && (|x| < |y| ==> Lt(a, b))
            && (|x| > |y| ==> !Lt(a, b))
            && (|x| == |y| ==> (Lt(a, b) <==> FirstDifferenceLess(x, y, 0)))
  {
    var x, y := Utf8(a.value), Utf8(b.value);
    if |x| == |y| {
      ScanLessMeaning(x, y, 0);
    }
  }

  lemma {:induction false} ScanLessIrreflexive(a: seq<byte>, i: nat)
    requires i <= |a|
    ensures !ScanLess(a, a, i)
    decreases |a| - i
  {
    if i < |a| {
      ScanLessIrreflexive(a, i + 1);
    }
  }

  /** `lt` is irreflexive: equal texts scan to the end without finding a difference. */
  lemma LtIrreflexive(a: AstName)
    ensures !Lt(a, a)
  {
    ScanLessIrreflexive(Utf8(a.value), 0);
  }

  lemma {:induction false} ScanLessTrichotomy(a: seq<byte>, b: seq<byte>, i: nat)
    requires |a| == |b| && i <= |a|
    ensures a[i..] != b[i..] ==> (ScanLess(a, b, i) || ScanLess(b, a, i))
    ensures !(ScanLess(a, b, i) && ScanLess(b, a, i))
    decreases |a| - i
  {
    if i < |a| {
      ScanLessTrichotomy(a, b, i + 1);
      if a[i] == b[i] && a[i..] != b[i..] {
        assert a[i..] == [a[i]] + a[i + 1..];
        assert b[i..] == [b[i]] + b[i + 1..];
      }
    }
  }

  /** For distinct names exactly one of `lt(a, b)` and `lt(b, a)` holds: distinct texts have distinct encodings. */
  lemma LtTrichotomy(a: AstName, b: AstName)
    ensures a != b ==> (Lt(a, b) || Lt(b, a))
    ensures !(Lt(a, b) && Lt(b, a))
  {
    var x, y := Utf8(a.value), Utf8(b.value);
    if |x| == |y| {
      ScanLessTrichotomy(x, y, 0);
      assert x[0..] == x && y[0..] == y;
      if x == y {
        Utf8Injective(a.value, b.value);
      }
    }
  }

  /**
   * Lengths are counted in bytes: `é` is one character but two bytes, so it
   * is compared with `ab` byte by byte, and its lead byte 0xC3 is above `a`.
   */
  lemma LtCountsBytes()
    ensures Lt(AstName("ab"), AstName("\U{E9}"))
    ensures !Lt(AstName("\U{E9}"), AstName("ab"))
  {
    assert Utf8("\U{E9}") == [0xC3, 0xA9];
    assert Utf8("ab") == [0x61, 0x62];
  }

  lemma {:induction false} ScanLessTransitive(a: seq<byte>, b: seq<byte>, c: seq<byte>, i: nat)
    requires |a| == |b| == |c| && i <= |a|
    requires ScanLess(a, b, i) && ScanLess(b, c, i)
    ensures ScanLess(a, c, i)
    decreases |a| - i
  {
    if a[i] == b[i] && b[i] == c[i] {
      ScanLessTransitive(a, b, c, i + 1);
    }
  }

  lemma LtTransitive(a: AstName, b: AstName, c: AstName)
    requires Lt(a, b) && Lt(b, c)
    ensures Lt(a, c)
  {
    var x, y, z := Utf8(a.value), Utf8(b.value), Utf8(c.value);
    if |x| == |y| == |z| {
      ScanLessTransitive(x, y, z, 0);
    }
  }

  // ---------------------------------------------------------------------------
  // Hashing
  // ---------------------------------------------------------------------------

  /** A character's scalar value as a 32-bit word (`u32::from(ch)`). */
  function CharWord(c: char): bv32 {
    c as int as bv32
  }

  /** One FNV-1a round: XOR the character in, then multiply by the prime modulo 2^32. */
  function Round(h: bv32, c: char): bv32 {
    (h ^ CharWord(c)) * FnvPrime
  }

  /** The 32-bit FNV-1a hash of a text, defined from its last character. */
  function Fnv(s: string): bv32
    decreases |s|
  {
    if |s| == 0 then FnvOffsetBasis
    else Round(Fnv(s[..|s| - 1]), s[|s| - 1])
  }

  /** The hash a name is stored under; it depends on the text only. */
  function Hash(n: AstName): (h: bv32)
    ensures n.value == [] ==> h == 2166136261
  {
    Fnv(n.value)
  }

  /** Extending a text by one character performs one FNV-1a round. */
  lemma FnvAppend(s: string, c: char)
    ensures Fnv(s + [c]) == Round(Fnv(s), c)
  {
    assert (s + [c])[..|s|] == s;
  }

  /** The published FNV-1a test vector: the 32-bit hash of "a" is 0xe40c292c. */
  lemma FnvTestVector()
    ensures Hash(AstName("a")) == 0xe40c292c
  {
    WordOf('a', 0x61);
    FnvAppend("", 'a');
    assert "" + ['a'] == "a";
  }

  /** A character's word is its code point, written as a word. */
  lemma WordOf(c: char, w: bv32)
    requires c as int == w as int
    ensures CharWord(c) == w
  {
  }

  // The hashes of the four names the parser interns, one round per character.

  lemma {:induction false} HashSelf()
    ensures Hash(AstName("self")) == 0x645ba277
  {
    WordOf('s', 0x73);
    FnvAppend("", 's');
    assert "" + ['s'] == "s";
    WordOf('e', 0x65);
    FnvAppend("s", 'e');
    assert "s" + ['e'] == "se";
    WordOf('l', 0x6c);
    FnvAppend("se", 'l');
    assert "se" + ['l'] == "sel";
    WordOf('f', 0x66);
    FnvAppend("sel", 'f');
    assert "sel" + ['f'] == "self";
  }

  lemma {:induction false} HashNumber()
    ensures Hash(AstName("number")) == 0x1bd670a0
  {
    WordOf('n', 0x6e);
    FnvAppend("", 'n');
    assert "" + ['n'] == "n";
    WordOf('u', 0x75);
    FnvAppend("n", 'u');
    assert "n" + ['u'] == "nu";
    WordOf('m', 0x6d);
    FnvAppend("nu", 'm');
    assert "nu" + ['m'] == "num";
    WordOf('b', 0x62);
    FnvAppend("num", 'b');
    assert "num" + ['b'] == "numb";
    WordOf('e', 0x65);
    FnvAppend("numb", 'e');
    assert "numb" + ['e'] == "numbe";
    WordOf('r', 0x72);
    FnvAppend("numbe", 'r');
    assert "numbe" + ['r'] == "number";
  }

  /** The first five rounds of `%error-id%`. */
  lemma {:induction false} FnvErrorPrefix()
    ensures Fnv("%erro") == 0x6c25bd30
  {
    WordOf('%', 0x25);
    FnvAppend("", '%');
    assert "" + ['%'] == "%";
    WordOf('e', 0x65);
    FnvAppend("%", 'e');
    assert "%" + ['e'] == "%e";
    WordOf('r', 0x72);
    FnvAppend("%e", 'r');
    assert "%e" + ['r'] == "%er";
    FnvAppend("%er", 'r');
    assert "%er" + ['r'] == "%err";
    WordOf('o', 0x6f);
    FnvAppend("%err", 'o');
    assert "%err" + ['o'] == "%erro";
  }

  lemma {:induction false} HashErrorId()
    ensures Hash(AstName("%error-id%")) == 0x688dbed3
  {
    FnvErrorPrefix();
    WordOf('r', 0x72);
    FnvAppend("%erro", 'r');
    assert "%erro" + ['r'] == "%error";
    WordOf('-', 0x2d);
    FnvAppend("%error", '-');
    assert "%error" + ['-'] == "%error-";
    WordOf('i', 0x69);
    FnvAppend("%error-", 'i');
    assert "%error-" + ['i'] == "%error-i";
    WordOf('d', 0x64);
    FnvAppend("%error-i", 'd');
    assert "%error-i" + ['d'] == "%error-id";
    WordOf('%', 0x25);
    FnvAppend("%error-id", '%');
    assert "%error-id" + ['%'] == "%error-id%";
  }

  lemma {:induction false} HashNil()
    ensures Hash(AstName("nil")) == 0x0da3f8ec
  {
    WordOf('n', 0x6e);
    FnvAppend("", 'n');
    assert "" + ['n'] == "n";
    WordOf('i', 0x69);
    FnvAppend("n", 'i');
    assert "n" + ['i'] == "ni";
    WordOf('l', 0x6c);
    FnvAppend("ni", 'l');
    assert "ni" + ['l'] == "nil";
  }

  /** `hash`: the forward loop over the characters, one XOR-then-multiply round each. */
  method ComputeHash(n: AstName) returns (h: bv32)
    ensures h == Hash(n)
    ensures n.value == [] ==> h == 2166136261
  {
    h := FnvOffsetBasis;
    var i := 0;
    while i < |n.value|
      invariant 0 <= i <= |n.value|
      invariant h == Fnv(n.value[..i])
    {
      assert n.value[..i + 1][..i] == n.value[..i];
      h := Round(h, n.value[i]);
      i := i + 1;
    }
    assert n.value[..i] == n.value;
  }
}
