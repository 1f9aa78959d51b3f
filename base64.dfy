/** The "base64url" encoding of section 5 of RFC 4648, without the padding
    that section 3.2 of RFC 4648 allows a specification to omit, as Go's
    `base64.RawURLEncoding` implements it.

    Encoding splits the input into 3-byte groups and writes each as four
    6-bit values (sextets), most significant first; a final group of one or
    two bytes becomes two or three sextets whose unused low bits are zero.
    Decoding is the reverse, with Go's leniencies: carriage returns and line
    feeds are skipped wherever they occur, and the unused low bits of a final
    partial group are ignored rather than required to be zero. */
module Base64 {
  import opened Types

  /** A 6-bit value, one character of the encoding. */
  type Sextet = v: int | 0 <= v < 64

  /** Table 2 of RFC 4648: the URL- and filename-safe alphabet. */
  function CharOf(v: Sextet): (c: char)
  {
    if v < 26 then ('A' as int + v) as char
    else if v < 52 then ('a' as int + (v - 26)) as char
    else if v < 62 then ('0' as int + (v - 52)) as char
    else if v == 62 then '-'
    else '_'
  }

  /** The value of an alphabet character, or None for any other character. */
  function ValueOf(c: char): (r: Option<Sextet>)
    ensures r.Some? ==> CharOf(r.value) == c
  {
    if 'A' <= c <= 'Z' then Some(c as int - 'A' as int)
    else if 'a' <= c <= 'z' then Some(c as int - 'a' as int + 26)
    else if '0' <= c <= '9' then Some(c as int - '0' as int + 52)
    else if c == '-' then Some(62)
    else if c == '_' then Some(63)
    else None
  }

  lemma ValueOfCharOf(v: Sextet)
    ensures ValueOf(CharOf(v)) == Some(v)
  {
  }

  // ---------------------------------------------------------------- bytes and sextets

  /** Splits bytes into sextets: four per full group, two or three for a final
      partial group, unused low bits zero. */
  function Pack(b: Bytes): (v: seq<Sextet>)
    decreases |b|
  {
    if |b| == 0 then []
    else if |b| == 1 then [First(b[0]), Second(b[0], 0)]
    else if |b| == 2 then [First(b[0]), Second(b[0], b[1]), Third(b[1], 0)]
    else [First(b[0]), Second(b[0], b[1]), Third(b[1], b[2]), Fourth(b[2])] + Pack(b[3..])
  }

  /** The four sextets of a group of three bytes x, y, z: the top six bits of
      x, then its low two bits with the top four of y, and so on. */
  function First(x: Byte): Sextet { x / 4 }
  function Second(x: Byte, y: Byte): Sextet { x % 4 * 16 + y / 16 }
  function Third(y: Byte, z: Byte): Sextet { y % 16 * 4 + z / 64 }
  function Fourth(z: Byte): Sextet { z % 64 }

  /** Joins sextets back into bytes; a lone final sextet is an error. The
      unused low bits of a final partial group are dropped. */
  function Unpack(v: seq<Sextet>): (r: Option<Bytes>)
    decreases |v|
  {
    if |v| == 0 then Some([])
    else if |v| == 1 then None
    else if |v| == 2 then Some([High(v[0], v[1])])
    else if |v| == 3 then Some([High(v[0], v[1]), Middle(v[1], v[2])])
    else
      match Unpack(v[4..])
      case None => None
      case Some(rest) => Some([High(v[0], v[1]), Middle(v[1], v[2]), Low(v[2], v[3])] + rest)
  }

  /** The three bytes of a group of four sextets a, b, c, d: the top six bits
      of the first byte come from a, and so on. */
  function High(a: Sextet, b: Sextet): Byte { a as int * 4 + b as int / 16 }
  function Middle(b: Sextet, c: Sextet): Byte { b as int % 16 * 16 + c as int / 4 }
  function Low(c: Sextet, d: Sextet): Byte { c as int % 4 * 64 + d as int }

  /** The unused low bits of a final partial group are zero: the sextet
      sequences that `Pack` can produce. */
  predicate ZeroTail(v: seq<Sextet>)
  {
    && (|v| % 4 == 2 ==> v[|v| - 1] % 16 == 0)
    && (|v| % 4 == 3 ==> v[|v| - 1] % 4 == 0)
  }

  lemma {:induction false} PackLength(b: Bytes)
    ensures |Pack(b)| == (8 * |b| + 5) / 6
    decreases |b|
  {
    if |b| >= 3 {
      PackLength(b[3..]);
    }
  }

  lemma {:induction false} PackZeroTail(b: Bytes)
    ensures ZeroTail(Pack(b)) && |Pack(b)| % 4 != 1
    decreases |b|
  {
    if |b| == 1 {
      assert Pack(b) == [First(b[0]), Second(b[0], 0)];
    } else if |b| == 2 {
      assert Pack(b) == [First(b[0]), Second(b[0], b[1]), Third(b[1], 0)];
    } else if |b| >= 3 {
      PackZeroTail(b[3..]);
      var v := Pack(b);
      assert v[4..] == Pack(b[3..]);
      ZeroTailRest(v);
    }
  }

  /** Splitting a byte and joining the pieces gives it back. */
  lemma SplitJoin(x: Byte, y: Byte, z: Byte)
    ensures High(First(x), Second(x, y)) == x
    ensures Middle(Second(x, y), Third(y, z)) == y
    ensures Low(Third(y, z), Fourth(z)) == z
  {
  }

  /** Joining sextets and splitting the bytes gives them back when the unused
      bits are zero. */
  lemma JoinSplit(a: Sextet, b: Sextet, c: Sextet, d: Sextet)
    ensures First(High(a, b)) == a
    ensures Second(High(a, b), Middle(b, c)) == b
    ensures Third(Middle(b, c), Low(c, d)) == c
    ensures Fourth(Low(c, d)) == d
    ensures b % 16 == 0 ==> Second(High(a, b), 0) == b
    ensures c % 4 == 0 ==> Third(Middle(b, c), 0) == c
  {
  }

  lemma {:induction false} UnpackPack(b: Bytes)
    ensures Unpack(Pack(b)) == Some(b)
    decreases |b|
  {
    if |b| == 1 {
      UnpackPackOne(b);
    } else if |b| == 2 {
      UnpackPackTwo(b);
    } else if |b| >= 3 {
      UnpackPack(b[3..]);
      UnpackPackGroup(b);
    }
  }

  /** UnpackPack for one byte. */
  lemma UnpackPackOne(b: Bytes)
    requires |b| == 1
    ensures Unpack(Pack(b)) == Some(b)
  {
    assert b == [b[0]];
    PackOneByte(b[0]);
  }

  /** UnpackPack for two bytes. */
  lemma UnpackPackTwo(b: Bytes)
    requires |b| == 2
    ensures Unpack(Pack(b)) == Some(b)
  {
    assert b == [b[0], b[1]];
    PackTwoBytes(b[0], b[1]);
  }

  lemma PackOneByte(x: Byte)
    ensures Unpack(Pack([x])) == Some([x])
  {
    assert Pack([x]) == [First(x), Second(x, 0)];
  }

  lemma PackTwoBytes(x: Byte, y: Byte)
    ensures Unpack(Pack([x, y])) == Some([x, y])
  {
    assert Pack([x, y]) == [First(x), Second(x, y), Third(y, 0)];
  }

  /** One step of UnpackPack: the first group, given the rest. */
  lemma UnpackPackGroup(b: Bytes)
    requires |b| >= 3 && Unpack(Pack(b[3..])) == Some(b[3..])
    ensures Unpack(Pack(b)) == Some(b)
  {
    UnpackGroupShape(b);
    JoinGroup(b[0], b[1], b[2]);
    SplitFirstGroup(b);
  }

  lemma SplitFirstGroup(b: Bytes)
    requires |b| >= 3
    ensures [b[0], b[1], b[2]] + b[3..] == b
  {
  }

  /** Joining the four sextets of a group of three bytes gives the bytes. */
  lemma JoinGroup(x: Byte, y: Byte, z: Byte)
    ensures var g := [First(x), Second(x, y), Third(y, z), Fourth(z)];
      [High(g[0], g[1]), Middle(g[1], g[2]), Low(g[2], g[3])] == [x, y, z]
  {
    SplitJoin(x, y, z);
  }

  /** Unpacking the packing of at least three bytes: the joined first group,
      then the unpacking of the packed rest. */
  lemma UnpackGroupShape(b: Bytes)
    requires |b| >= 3 && Unpack(Pack(b[3..])) == Some(b[3..])
    ensures var g := [First(b[0]), Second(b[0], b[1]), Third(b[1], b[2]), Fourth(b[2])];
      Unpack(Pack(b)) == Some([High(g[0], g[1]), Middle(g[1], g[2]), Low(g[2], g[3])] + b[3..])
  {
    var v := Pack(b);
    assert v[4..] == Pack(b[3..]);
  }

  lemma {:induction false} UnpackLength(v: seq<Sextet>)
    requires Unpack(v).Some?
    ensures |Unpack(v).value| == |v| * 6 / 8
    decreases |v|
  {
    if |v| >= 4 {
      UnpackLength(v[4..]);
    }
  }

  /** Unpacking fails only on a lone final sextet. */
  lemma {:induction false} UnpackTotal(v: seq<Sextet>)
    ensures Unpack(v).Some? <==> |v| % 4 != 1
    decreases |v|
  {
    if |v| >= 4 {
      UnpackTotal(v[4..]);
      assert |v[4..]| % 4 == |v| % 4;
    }
  }

  lemma {:induction false} PackUnpack(v: seq<Sextet>)
    requires Unpack(v).Some? && ZeroTail(v)
    ensures Pack(Unpack(v).value) == v
    decreases |v|
  {
    if |v| == 2 {
      PackUnpackTwo(v);
    } else if |v| == 3 {
      PackUnpackThree(v);
    } else if |v| >= 4 {
      ZeroTailRest(v);
      PackUnpack(v[4..]);
      PackUnpackGroup(v);
    }
  }

  /** PackUnpack for a final group of two sextets. */
  lemma PackUnpackTwo(v: seq<Sextet>)
    requires |v| == 2 && ZeroTail(v)
    ensures Unpack(v).Some? && Pack(Unpack(v).value) == v
  {
    assert v == [v[0], v[1]];
    JoinTwo(v[0], v[1]);
  }

  /** PackUnpack for a final group of three sextets. */
  lemma PackUnpackThree(v: seq<Sextet>)
    requires |v| == 3 && ZeroTail(v)
    ensures Unpack(v).Some? && Pack(Unpack(v).value) == v
  {
    assert v == [v[0], v[1], v[2]];
    JoinThree(v[0], v[1], v[2]);
  }

  lemma JoinTwo(a: Sextet, b: Sextet)
    requires b % 16 == 0
    ensures Unpack([a, b]) == Some([High(a, b)]) && Pack([High(a, b)]) == [a, b]
  {
    assert Pack([High(a, b)]) == [First(High(a, b)), Second(High(a, b), 0)];
  }

  lemma JoinThree(a: Sextet, b: Sextet, c: Sextet)
    requires c % 4 == 0
    ensures Unpack([a, b, c]) == Some([High(a, b), Middle(b, c)])
    ensures Pack([High(a, b), Middle(b, c)]) == [a, b, c]
  {
    var x, y := High(a, b), Middle(b, c);
    assert Pack([x, y]) == [First(x), Second(x, y), Third(y, 0)];
    JoinSplit(a, b, c, 0);
  }

  /** A full group in front does not change whether the unused bits at the
      end are zero. */
  lemma ZeroTailRest(v: seq<Sextet>)
    requires |v| >= 4
    ensures ZeroTail(v[4..]) == ZeroTail(v) && |v[4..]| % 4 == |v| % 4
  {
    var w := v[4..];
    assert |w| > 0 ==> w[|w| - 1] == v[|v| - 1];
  }

  /** One step of PackUnpack: the first group, given the rest. */
  lemma PackUnpackGroup(v: seq<Sextet>)
    requires |v| >= 4 && Unpack(v).Some?
    requires Pack(Unpack(v[4..]).value) == v[4..]
    ensures Pack(Unpack(v).value) == v
  {
    var rest := Unpack(v[4..]).value;
    var x, y, z := High(v[0], v[1]), Middle(v[1], v[2]), Low(v[2], v[3]);
    var b := [x, y, z] + rest;
    assert Unpack(v).value == b;
    PackGroup(x, y, z, rest);
    JoinSplit(v[0], v[1], v[2], v[3]);
    assert v == [v[0], v[1], v[2], v[3]] + v[4..];
  }

  lemma PackGroup(x: Byte, y: Byte, z: Byte, rest: Bytes)
    ensures Pack([x, y, z] + rest) == [First(x), Second(x, y), Third(y, z), Fourth(z)] + Pack(rest)
  {
    assert ([x, y, z] + rest)[3..] == rest;
  }

  // ---------------------------------------------------------------- sextets and characters

  /** Writes each sextet as its alphabet character. */
  function Chars(v: seq<Sextet>): (s: string)
    ensures |s| == |v|
    decreases |v|
  {
    if |v| == 0 then [] else [CharOf(v[0])] + Chars(v[1..])
  }

  /** Reads each character as a sextet; any character outside the alphabet is
      an error. */
  function Sextets(s: string): (r: Option<seq<Sextet>>)
    decreases |s|
  {
    if |s| == 0 then Some([])
    else
      match ValueOf(s[0])
      case None => None
      case Some(x) =>
        match Sextets(s[1..])
        case None => None
        case Some(rest) => Some([x] + rest)
  }

  /** Every character is in the alphabet. */
  predicate AllInAlphabet(s: string)
  {
    forall i | 0 <= i < |s| :: ValueOf(s[i]).Some?
  }

  /** A concatenation is in the alphabet exactly when both parts are. */
  lemma AllInAlphabetConcat(s: string, t: string)
    ensures AllInAlphabet(s + t) <==> AllInAlphabet(s) && AllInAlphabet(t)
  {
    if AllInAlphabet(s + t) {
      assert forall i | 0 <= i < |s| :: s[i] == (s + t)[i];
      assert forall i | 0 <= i < |t| :: t[i] == (s + t)[|s| + i];
    }
  }

  /** Go's decoder ignores carriage returns and line feeds. */
  function StripNewlines(s: string): (r: string)
    ensures |r| <= |s|
    ensures forall i | 0 <= i < |r| :: r[i] != '\r' && r[i] != '\n'
    decreases |s|
  {
    if |s| == 0 then []
    else if s[0] == '\r' || s[0] == '\n' then StripNewlines(s[1..])
    else [s[0]] + StripNewlines(s[1..])
  }

  lemma {:induction false} SextetsChars(v: seq<Sextet>)
    ensures Sextets(Chars(v)) == Some(v)
    decreases |v|
  {
    if |v| > 0 {
      SextetsChars(v[1..]);
      ValueOfCharOf(v[0]);
      assert Chars(v)[0] == CharOf(v[0]);
      assert Chars(v)[1..] == Chars(v[1..]);
      assert [v[0]] + v[1..] == v;
    }
  }

  lemma {:induction false} CharsSextets(s: string)
    requires Sextets(s).Some?
    ensures Chars(Sextets(s).value) == s
    decreases |s|
  {
    if |s| > 0 {
      CharsSextets(s[1..]);
      assert Sextets(s).value[1..] == Sextets(s[1..]).value;
    }
  }

  lemma {:induction false} SextetsAllInAlphabet(s: string)
    ensures Sextets(s).Some? <==> AllInAlphabet(s)
    ensures Sextets(s).Some? ==> |Sextets(s).value| == |s|
    decreases |s|
  {
    if |s| > 0 {
      SextetsAllInAlphabet(s[1..]);
      assert forall i | 1 <= i < |s| :: s[i] == s[1..][i - 1];
    }
  }

  lemma {:induction false} StripNewlinesAlphabet(s: string)
    requires AllInAlphabet(s)
    ensures StripNewlines(s) == s
    decreases |s|
  {
    if |s| > 0 {
      assert ValueOf(s[0]).Some?;
      assert AllInAlphabet(s[1..]) by {
        assert forall i | 0 <= i < |s| - 1 :: s[1..][i] == s[i + 1];
      }
      StripNewlinesAlphabet(s[1..]);
      assert [s[0]] + s[1..] == s;
    }
  }

  // ---------------------------------------------------------------- the codec

  /** `RawURLEncoding.EncodeToString`. */
  function Encode(b: Bytes): (s: string)
    ensures |s| == (8 * |b| + 5) / 6
    ensures AllInAlphabet(s)
  {
    PackLength(b);
    SextetsChars(Pack(b));
    SextetsAllInAlphabet(Chars(Pack(b)));
    Chars(Pack(b))
  }

  /** `RawURLEncoding.DecodeString`; None is a decoding error. Once
      newlines are skipped, it fails exactly on a character outside the
      alphabet or on a length of 1 mod 4, and otherwise yields n * 6 / 8
      bytes for the n remaining characters, never more bytes than the
      string has characters. */
  function Decode(s: string): (r: Option<Bytes>)
    ensures r.Some? <==> AllInAlphabet(StripNewlines(s)) && |StripNewlines(s)| % 4 != 1
    ensures r.Some? ==> |r.value| == |StripNewlines(s)| * 6 / 8 && |r.value| <= |s|
  {
    SextetsAllInAlphabet(StripNewlines(s));
    match Sextets(StripNewlines(s))
    case None => None
    case Some(v) =>
      UnpackTotal(v);
      if Unpack(v).Some? then UnpackLength(v); Unpack(v) else Unpack(v)
  }

  /** Newlines anywhere in the string do not change the decoding: stripping
      them first decodes the same. */
  lemma DecodeIgnoresNewlines(s: string)
    ensures Decode(StripNewlines(s)) == Decode(s)
  {
    StripNewlinesIdle(StripNewlines(s));
  }

  /** A string without newlines is left as it is. */
  lemma {:induction false} StripNewlinesIdle(s: string)
    requires forall i | 0 <= i < |s| :: s[i] != '\r' && s[i] != '\n'
    ensures StripNewlines(s) == s
    decreases |s|
  {
    if |s| > 0 {
      StripNewlinesIdle(s[1..]);
      assert [s[0]] + s[1..] == s;
    }
  }

  /** Test vectors fixing the bit order and the alphabet: "foobar" from
      section 10 of RFC 4648, and two bytes that use both URL-safe
      characters of its section 5 table. */
  lemma EncodeVectors()
    ensures Encode([102, 111, 111, 98, 97, 114]) == "Zm9vYmFy"
    ensures Encode([0xfb, 0xff]) == "-_8"
  {
    var foo: Bytes := [102, 111, 111];
    var bar: Bytes := [98, 97, 114];
    assert Pack(bar) == [24, 38, 5, 50] by {
      assert bar[3..] == [];
    }
    assert Pack(foo + bar) == [25, 38, 61, 47] + Pack(bar) by {
      assert (foo + bar)[3..] == bar;
    }
    assert Chars([24, 38, 5, 50]) == "YmFy";
    assert Chars([25, 38, 61, 47, 24, 38, 5, 50]) == "Zm9v" + Chars([24, 38, 5, 50]);
    assert foo + bar == [102, 111, 111, 98, 97, 114];
  }

  /** Decoding an encoding gives the bytes back. */
  lemma DecodeEncode(b: Bytes)
    ensures Decode(Encode(b)) == Some(b)
  {
    var s := Encode(b);
    StripNewlinesAlphabet(s);
    SextetsChars(Pack(b));
    UnpackPack(b);
  }

  /** A successful decoding of n characters (newlines not counted) yields
      n * 6 / 8 bytes, Go's `RawURLEncoding.DecodedLen(n)`. */
  lemma DecodeLength(s: string)
    requires AllInAlphabet(s) && Decode(s).Some?
    ensures |Decode(s).value| == |s| * 6 / 8
  {
    StripNewlinesAlphabet(s);
    SextetsAllInAlphabet(s);
    UnpackLength(Sextets(s).value);
  }

  /** A canonical string: alphabet characters only, a length the encoder can
      produce and zero unused bits. Exactly the strings `Encode` produces. */
  predicate Canonical(s: string)
  {
    && AllInAlphabet(s)
    && |s| % 4 != 1
    && (|s| % 4 == 2 ==> ValueOf(s[|s| - 1]).value % 16 == 0)
    && (|s| % 4 == 3 ==> ValueOf(s[|s| - 1]).value % 4 == 0)
  }

  lemma EncodeCanonical(b: Bytes)
    ensures Canonical(Encode(b))
  {
    var v := Pack(b);
    PackZeroTail(b);
    SextetsChars(v);
    ValueOfCharOf(if |v| > 0 then v[|v| - 1] else 0);
    if |v| > 0 {
      CharsLast(v);
    }
  }

  lemma {:induction false} CharsLast(v: seq<Sextet>)
    requires |v| > 0
    ensures Chars(v)[|v| - 1] == CharOf(v[|v| - 1])
    decreases |v|
  {
    if |v| > 1 {
      CharsLast(v[1..]);
    }
  }

  /** A canonical string decodes, and re-encoding the result gives the
      string back. */
  lemma EncodeDecode(s: string)
    requires Canonical(s)
    ensures Decode(s).Some? && Encode(Decode(s).value) == s
  {
    StripNewlinesAlphabet(s);
    SextetsAllInAlphabet(s);
    var v := Sextets(s).value;
    CharsSextets(s);
    if |s| > 0 {
      CharsLast(v);
      ValueOfCharOf(v[|v| - 1]);
    }
    assert Unpack(v).Some? by {
      UnpackTotal(v);
    }
    assert ZeroTail(v);
    PackUnpack(v);
  }
}
