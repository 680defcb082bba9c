/** Base64 as the gateway bridge codes it (the printable encoding of section 4 of
    RFC 4648).  Bits are taken in pairs: a byte is four pairs, a code three, and
    coding is a regrouping of pairs. */
module Base64 {
  import opened Common

  type Code = x: int | 0 <= x < 64
  type Pair = x: int | 0 <= x < 4

  /** Eight and six bits, highest pair first. */
  datatype Octet = Octet(a: Pair, b: Pair, c: Pair, d: Pair)
  datatype Sextet = Sextet(a: Pair, b: Pair, c: Pair)

  const PAD: char := '='
  const NUL: char := '\0'

  // ----- numbers and their bits ----------------------------------------------

  function OctetOf(n: Byte): Octet
  {
    Octet(n / 4 / 4 / 4, n / 4 / 4 % 4, n / 4 % 4, n % 4)
  }

  function ByteOf(o: Octet): Byte
  {
    o.a * 64 + o.b * 16 + o.c * 4 + o.d
  }

  function SextetOf(n: Code): Sextet
  {
    Sextet(n / 4 / 4, n / 4 % 4, n % 4)
  }

  function CodeOf(s: Sextet): Code
  {
    s.a * 16 + s.b * 4 + s.c
  }

  /** The lowest pair splits off. */
  lemma {:induction false} LowPair(m: nat, r: Pair)
    ensures (m * 4 + r) / 4 == m && (m * 4 + r) % 4 == r
  {
  }

  lemma {:induction false} OctetBack(o: Octet)
    ensures OctetOf(ByteOf(o)) == o
  {
    assert ByteOf(o) == (o.a * 16 + o.b * 4 + o.c) * 4 + o.d;
    LowPair(o.a * 16 + o.b * 4 + o.c, o.d);
    LowPair(o.a * 4 + o.b, o.c);
    LowPair(o.a, o.b);
  }

  lemma {:induction false} ByteBack(n: Byte)
    ensures ByteOf(OctetOf(n)) == n
  {
    var m, k := n / 4, n / 4 / 4;
    assert n == m * 4 + n % 4;
    assert m == k * 4 + m % 4;
    assert k == k / 4 * 4 + k % 4;
  }

  lemma {:induction false} SextetBack(s: Sextet)
    ensures SextetOf(CodeOf(s)) == s
  {
    assert CodeOf(s) == (s.a * 4 + s.b) * 4 + s.c;
    LowPair(s.a * 4 + s.b, s.c);
    LowPair(s.a, s.b);
  }

  lemma {:induction false} CodeBack(n: Code)
    ensures CodeOf(SextetOf(n)) == n
  {
    var m := n / 4;
    assert n == m * 4 + n % 4;
    assert m == m / 4 * 4 + m % 4;
  }

  function ToOctets(x: seq<Byte>): (o: seq<Octet>)
    ensures |o| == |x|
    ensures forall i :: 0 <= i < |x| ==> o[i] == OctetOf(x[i])
  {
    if x == [] then [] else [OctetOf(x[0])] + ToOctets(x[1..])
  }

  function ToBytes(o: seq<Octet>): (x: seq<Byte>)
    ensures |x| == |o|
    ensures forall i :: 0 <= i < |o| ==> x[i] == ByteOf(o[i])
  {
    if o == [] then [] else [ByteOf(o[0])] + ToBytes(o[1..])
  }

  lemma {:induction false} BytesBack(x: seq<Byte>)
    ensures ToBytes(ToOctets(x)) == x
  {
    forall i | 0 <= i < |x|
      ensures ToBytes(ToOctets(x))[i] == x[i]
    {
      ByteBack(x[i]);
    }
  }

  lemma {:induction false} OctetsBack(o: seq<Octet>)
    ensures ToOctets(ToBytes(o)) == o
  {
    forall i | 0 <= i < |o|
      ensures ToOctets(ToBytes(o))[i] == o[i]
    {
      OctetBack(o[i]);
    }
  }

  // ----- characters ----------------------------------------------------------

  function CodeToChar(x: Code): char
  {
    if x <= 25 then (65 + x) as char
    else if x <= 51 then (97 + (x - 26)) as char
    else if x <= 61 then (48 + (x - 52)) as char
    else if x == 62 then '+'
    else '/'
  }

  /** None stands for the exit on a character outside the alphabet. */
  function CharToCode(c: char): Option<Code>
  {
    if 'A' <= c <= 'Z' then Some(c as int - 65)
    else if 'a' <= c <= 'z' then Some(c as int - 97 + 26)
    else if '0' <= c <= '9' then Some(c as int - 48 + 52)
    else if c == '+' then Some(62)
    else if c == '/' then Some(63)
    else None
  }

  lemma {:induction false} CharRoundTrip(x: Code)
    ensures CharToCode(CodeToChar(x)) == Some(x)
    ensures CodeToChar(x) != PAD && CodeToChar(x) != NUL
  {
  }

  lemma {:induction false} CodeRoundTrip(c: char)
    requires CharToCode(c).Some?
    ensures CodeToChar(CharToCode(c).value) == c && c != PAD
  {
  }

  function Text(c: seq<Sextet>): (s: string)
    ensures |s| == |c|
    ensures forall i :: 0 <= i < |c| ==> s[i] == CodeToChar(CodeOf(c[i]))
  {
    if c == [] then [] else [CodeToChar(CodeOf(c[0]))] + Text(c[1..])
  }

  predicate InAlphabet(s: string)
  {
    forall i :: 0 <= i < |s| ==> CharToCode(s[i]).Some?
  }

  function FromText(s: string): (c: seq<Sextet>)
    requires InAlphabet(s)
    ensures |c| == |s|
    ensures forall i :: 0 <= i < |s| ==> c[i] == SextetOf(CharToCode(s[i]).value)
  {
    if s == [] then [] else [SextetOf(CharToCode(s[0]).value)] + FromText(s[1..])
  }

  lemma {:induction false} TextIsInAlphabet(c: seq<Sextet>)
    ensures InAlphabet(Text(c)) && FromText(Text(c)) == c
  {
    forall i | 0 <= i < |c|
      ensures CharToCode(Text(c)[i]) == Some(CodeOf(c[i])) && SextetOf(CodeOf(c[i])) == c[i]
    {
      CharRoundTrip(CodeOf(c[i]));
      SextetBack(c[i]);
    }
  }

  lemma {:induction false} TextBack(s: string)
    requires InAlphabet(s)
    ensures Text(FromText(s)) == s
  {
    forall i | 0 <= i < |s|
      ensures Text(FromText(s))[i] == s[i]
    {
      CodeRoundTrip(s[i]);
      CodeBack(CharToCode(s[i]).value);
    }
  }

  // ----- regrouping ----------------------------------------------------------

  const ZERO: Octet := Octet(0, 0, 0, 0)

  function Block4(x: Octet, y: Octet, z: Octet): (c: seq<Sextet>)
    ensures |c| == 4
  {
    [Sextet(x.a, x.b, x.c), Sextet(x.d, y.a, y.b), Sextet(y.c, y.d, z.a), Sextet(z.b, z.c, z.d)]
  }

  function Block3(p: Sextet, q: Sextet, r: Sextet, s: Sextet): (x: seq<Octet>)
    ensures |x| == 3
  {
    [Octet(p.a, p.b, p.c, q.a), Octet(q.b, q.c, r.a, r.b), Octet(r.c, s.a, s.b, s.c)]
  }

  /** The bits in groups of six, the last group filled up with zeros. */
  function Codes(x: seq<Octet>): (c: seq<Sextet>)
    ensures |x| % 3 == 0 ==> |c| % 4 == 0
    ensures |x| % 3 == 1 ==> |c| % 4 == 2
    ensures |x| % 3 == 2 ==> |c| % 4 == 3
  {
    if |x| == 0 then []
    else if |x| == 1 then Block4(x[0], ZERO, ZERO)[..2]
    else if |x| == 2 then Block4(x[0], x[1], ZERO)[..3]
    else Block4(x[0], x[1], x[2]) + Codes(x[3..])
  }

  const NONE: Sextet := Sextet(0, 0, 0)

  /** The bits in groups of eight; an incomplete group is dropped. */
  function Octets(c: seq<Sextet>): (x: seq<Octet>)
    ensures |c| % 4 == 0 ==> |x| % 3 == 0
    ensures |c| % 4 == 2 ==> |x| % 3 == 1
    ensures |c| % 4 == 3 ==> |x| % 3 == 2
  {
    if |c| <= 1 then []
    else if |c| == 2 then Block3(c[0], c[1], NONE, NONE)[..1]
    else if |c| == 3 then Block3(c[0], c[1], c[2], NONE)[..2]
    else Block3(c[0], c[1], c[2], c[3]) + Octets(c[4..])
  }

  function Padding(n: nat): string
  {
    if n % 3 == 1 then [PAD, PAD] else if n % 3 == 2 then [PAD] else []
  }

  function EncodeNoPad(x: seq<Byte>): string
  {
    Text(Codes(ToOctets(x)))
  }

  function Encode(x: seq<Byte>): string
  {
    EncodeNoPad(x) + Padding(|x|)
  }

  /** Decoding gives bytes, fails with -1, or ends the program. */
  datatype Decoded = Data(bytes: seq<Byte>) | Error | Exit

  function DecodeNoPad(s: string): Decoded
  {
    if |s| % 4 == 1 then Error
    else if !InAlphabet(s) then Exit
    else Data(ToBytes(Octets(FromText(s))))
  }

  /** What b64_to_bin ignores at the end: two characters if the last but one is a
      padding character, one if only the last is. */
  function Stripped(s: string): string
  {
    if |s| % 4 == 0 && |s| >= 4 then
      if s[|s| - 2] == PAD then s[..|s| - 2]
      else if s[|s| - 1] == PAD then s[..|s| - 1]
      else s
    else s
  }

  function Decode(s: string): Decoded
  {
    DecodeNoPad(Stripped(s))
  }

  // ----- round trip ----------------------------------------------------------

  lemma {:induction false} OctetsOfCodes(x: seq<Octet>)
    ensures Octets(Codes(x)) == x
  {
    if |x| >= 3 {
      OctetsOfCodes(x[3..]);
      var b := Block4(x[0], x[1], x[2]);
      var c := Codes(x);
      assert c[0] == b[0] && c[1] == b[1] && c[2] == b[2] && c[3] == b[3] && c[4..] == Codes(x[3..]);
      assert x == [x[0], x[1], x[2]] + x[3..];
    }
  }

  /** Nothing but the padding is stripped from an encoding. */
  lemma {:induction false} StrippedPadded(t: string, n: nat)
    requires InAlphabet(t)
    requires |t| % 4 == if n % 3 == 0 then 0 else n % 3 + 1
    ensures Stripped(t + Padding(n)) == t
  {
    if |t| >= 2 {
      CodeRoundTrip(t[|t| - 1]);
      CodeRoundTrip(t[|t| - 2]);
    }
  }

  /** Base64 round trip: decoding an encoding gives the bytes back, for every input. */
  lemma {:induction false} RoundTrip(x: seq<Byte>)
    ensures Decode(Encode(x)) == Data(x)
  {
    var c := Codes(ToOctets(x));
    TextIsInAlphabet(c);
    StrippedPadded(EncodeNoPad(x), |x|);
    OctetsOfCodes(ToOctets(x));
    BytesBack(x);
  }

  // ----- canonical inverse ---------------------------------------------------

  /** The bits of the last code that no byte uses are zero. */
  predicate TailBitsZero(c: seq<Sextet>)
  {
    |c| == 0 || ZeroAfter(|c| % 4, c[|c| - 1])
  }

  /** How many pairs of the last code are unused, by the number of codes in its block. */
  predicate ZeroAfter(n: nat, last: Sextet)
  {
    (n == 2 ==> last.b == 0 && last.c == 0) && (n == 3 ==> last.c == 0)
  }

  /** Canonical text: alphabet characters with zero tail bits, then exactly the
      padding that completes the last block (section 3.5 of RFC 4648). */
  predicate Canonical(s: string)
  {
    var t := Stripped(s);
    && |s| % 4 == 0
    && InAlphabet(t) && TailBitsZero(FromText(t))
    && s == t + (if |t| % 4 == 2 then [PAD, PAD] else if |t| % 4 == 3 then [PAD] else [])
  }

  lemma {:induction false} CodesPrepend(x: Octet, y: Octet, z: Octet, rest: seq<Octet>)
    ensures Codes([x, y, z] + rest) == Block4(x, y, z) + Codes(rest)
  {
    var all := [x, y, z] + rest;
    assert all[0] == x && all[1] == y && all[2] == z && all[3..] == rest;
  }

  lemma {:induction false} SamePrefix(a: seq<Sextet>, y: seq<Sextet>, z: seq<Sextet>)
    ensures a + y == a + z <==> y == z
  {
    assert (a + y)[|a|..] == y && (a + z)[|a|..] == z;
  }

  /** A whole block in front changes nothing. */
  lemma {:induction false} FrontBlock(x: Octet, y: Octet, z: Octet, rest: seq<Octet>, c: seq<Sextet>)
    requires |c| >= 4 && c[..4] == Block4(x, y, z)
    ensures Codes([x, y, z] + rest) == c <==> Codes(rest) == c[4..]
  {
    CodesPrepend(x, y, z, rest);
    SamePrefix(c[..4], Codes(rest), c[4..]);
    assert c == c[..4] + c[4..];
  }

  lemma {:induction false} OctetsFront(c: seq<Sextet>) returns (x: Octet, y: Octet, z: Octet)
    requires |c| >= 4
    ensures c[..4] == Block4(x, y, z) && Octets(c) == [x, y, z] + Octets(c[4..])
  {
    var b := Block3(c[0], c[1], c[2], c[3]);
    x, y, z := b[0], b[1], b[2];
    assert c[..4] == [c[0], c[1], c[2], c[3]];
    assert b == [x, y, z];
  }

  lemma {:induction false} LongerCodes(c: seq<Sextet>)
    requires |c| >= 4 && (Codes(Octets(c[4..])) == c[4..] <==> TailBitsZero(c[4..]))
    ensures Codes(Octets(c)) == c <==> TailBitsZero(c)
  {
    var x, y, z := OctetsFront(c);
    FrontBlock(x, y, z, Octets(c[4..]), c);
    TailOfRest(c);
  }

  lemma {:induction false} TailOfRest(c: seq<Sextet>)
    requires |c| >= 4
    ensures TailBitsZero(c[4..]) <==> TailBitsZero(c)
  {
    var d := c[4..];
    assert |d| % 4 == |c| % 4;
    if |d| > 0 {
      assert d[|d| - 1] == c[|c| - 1];
    }
  }

  lemma {:induction false} CodesOfOctets(c: seq<Sextet>)
    requires |c| % 4 != 1
    ensures Codes(Octets(c)) == c <==> TailBitsZero(c)
  {
    if |c| >= 4 {
      CodesOfOctets(c[4..]);
      LongerCodes(c);
    }
  }

  /** Base64 canonical inverse, exactly: a text that decodes is the encoding of
      its bytes if and only if it is canonical. */
  lemma {:induction false} CanonicalIff(s: string)
    requires Decode(s).Data?
    ensures Encode(Decode(s).bytes) == s <==> Canonical(s)
  {
    var t := Stripped(s);
    var c := FromText(t);
    var x := ToBytes(Octets(c));
    OctetsBack(Octets(c));
    CodesOfOctets(c);
    TextBack(t);
    TextIsInAlphabet(Codes(ToOctets(x)));
    if Encode(x) == s {
      StrippedPadded(EncodeNoPad(x), |x|);
    }
  }

  /** Removing the padding does not change what a text decodes to. */
  lemma {:induction false} PaddingIsIgnored(s: string)
    requires Decode(s).Data?
    ensures Decode(Stripped(s)) == Decode(s)
  {
    var t := Stripped(s);
    if |t| % 4 == 0 && |t| >= 4 {
      CodeRoundTrip(t[|t| - 2]);
      CodeRoundTrip(t[|t| - 1]);
    }
    assert Stripped(t) == t;
  }

  // ----- characters, written out ---------------------------------------------

  /** The alphabet of section 4 of RFC 4648. */
  const UPPER: string := "ABCDEFGHIJKLMNOPQRSTUVWXYZ"
  const LOWER: string := "abcdefghijklmnopqrstuvwxyz"
  const DIGITS: string := "0123456789"
  const ALPHABET: string := UPPER + LOWER + DIGITS + "+/"

  lemma {:induction false} Letters(x: nat)
    requires x < 26
    ensures |UPPER| == 26 && |LOWER| == 26 && UPPER[x] == (65 + x) as char && LOWER[x] == (97 + x) as char
  {
    assert "ABCDEFGHIJKLMNOPQRSTUVWXYZ"[x] == (65 + x) as char;
    assert "abcdefghijklmnopqrstuvwxyz"[x] == (97 + x) as char;
  }

  lemma {:induction false} Figures(x: nat)
    requires x < 10
    ensures |DIGITS| == 10 && DIGITS[x] == (48 + x) as char
  {
    assert "0123456789"[x] == (48 + x) as char;
  }

  /** Code x is written as character x of the alphabet. */
  lemma {:induction false} Alphabet(x: Code)
    ensures |ALPHABET| == 64 && CodeToChar(x) == ALPHABET[x]
  {
    if x <= 25 {
      Letters(x);
      assert ALPHABET[x] == UPPER[x];
    } else if x <= 51 {
      Letters(x - 26);
      assert ALPHABET[x] == LOWER[x - 26];
    } else if x <= 61 {
      Figures(x - 52);
      assert ALPHABET[x] == DIGITS[x - 52];
    }
  }

  /** A character is in the alphabet exactly if it is one of those. */
  lemma {:induction false} AlphabetIff(c: char)
    ensures CharToCode(c).Some? <==> c in ALPHABET
    ensures CharToCode(c).Some? ==> ALPHABET[CharToCode(c).value] == c
  {
    if CharToCode(c).Some? {
      var x := CharToCode(c).value;
      CodeRoundTrip(c);
      Alphabet(x);
      assert ALPHABET[x] in ALPHABET;
    } else if c in ALPHABET {
      var i :| 0 <= i < |ALPHABET| && ALPHABET[i] == c;
      Alphabet(i);
      CharRoundTrip(i);
    }
  }

  /** What pads an encoding: two equals signs behind one byte left over, one behind
      two, none behind whole blocks; in front of them only the alphabet. */
  lemma {:induction false} PaddingWritten(x: seq<Byte>)
    ensures var t := EncodeNoPad(x);
            && InAlphabet(t) && '=' !in t
            && (|x| % 3 == 1 ==> Encode(x) == t + "==")
            && (|x| % 3 == 2 ==> Encode(x) == t + "=")
            && (|x| % 3 == 0 ==> Encode(x) == t)
  {
    var t := EncodeNoPad(x);
    TextIsInAlphabet(Codes(ToOctets(x)));
    forall i | 0 <= i < |t|
      ensures t[i] != '='
    {
      CodeRoundTrip(t[i]);
    }
    assert t + [] == t;
  }

  /** What decoding ignores: in a text of whole blocks the last two characters if the
      last but one is an equals sign, else the last one if it is one. */
  lemma {:induction false} TwoIgnored(t: string, c: char)
    requires |t| % 4 == 2
    ensures Stripped(t + ['=', c]) == t
  {
    var s := t + ['=', c];
    assert s[|s| - 2] == '=' && s[..|s| - 2] == t;
  }

  lemma {:induction false} OneIgnored(t: string)
    requires |t| % 4 == 3 && t[|t| - 1] != '='
    ensures Stripped(t + ['=']) == t
  {
    var s := t + ['='];
    assert s[|s| - 2] == t[|t| - 1] && s[|s| - 1] == '=' && s[..|s| - 1] == t;
  }

  lemma {:induction false} NoneIgnored(t: string)
    requires |t| % 4 != 0 || '=' !in t
    ensures Stripped(t) == t
  {
  }

  /** When decoding fails and how: with -1 if one character is left over, by ending the
      program on a character outside the alphabet. */
  lemma {:induction false} DecodeFails(s: string)
    ensures DecodeNoPad(s) == Error <==> |s| % 4 == 1
    ensures DecodeNoPad(s) == Exit <==> |s| % 4 != 1 && exists i :: 0 <= i < |s| && s[i] !in ALPHABET
  {
    forall i | 0 <= i < |s|
      ensures CharToCode(s[i]).Some? <==> s[i] in ALPHABET
    {
      AlphabetIff(s[i]);
    }
  }
}
