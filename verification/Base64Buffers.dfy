/** The Base64 functions as they run: loops over blocks that write into a buffer
    of limited size, with a 24-bit word in between. */
module Base64Buffers {
  import opened Common
  import opened Base64

  // ----- lengths -------------------------------------------------------------

  /** Characters for n bytes without padding: four a block, two or three for the rest. */
  function TextLength(n: nat): nat
  {
    4 * (n / 3) + if n % 3 == 0 then 0 else n % 3 + 1
  }

  lemma {:induction false} CodesLength(x: seq<Octet>)
    ensures |Codes(x)| == TextLength(|x|)
  {
    if |x| >= 3 {
      CodesLength(x[3..]);
    }
  }

  function DataLength(m: nat): nat
  {
    3 * (m / 4) + if m % 4 <= 1 then 0 else m % 4 - 1
  }

  lemma {:induction false} OctetsLength(c: seq<Sextet>)
    ensures |Octets(c)| == DataLength(|c|)
  {
    if |c| >= 4 {
      OctetsLength(c[4..]);
    }
  }

  // ----- the 24-bit word -----------------------------------------------------

  /** Quotient and remainder of a value given in parts. */
  lemma {:induction false} Parts(b: nat, d: nat, q: nat, r: nat)
    requires r < d && b == d * q + r
    ensures b / d == q && b % d == r
  {
    assert d * (b / d) + b % d == b;
    var z := b / d - q;
    Multiple(d, z);
    assert d * z == r - b % d;
  }

  lemma {:induction false} Multiple(d: nat, z: int)
    ensures z >= 1 ==> d * z >= d
    ensures z <= -1 ==> d * z <= -(d as int)
  {
  }

  /** A 24-bit word cut into four six-bit parts by shifts and masks. */
  lemma {:induction false} CutInFour(b: nat, c0: Code, c1: Code, c2: Code, c3: Code)
    requires b == c0 * 262144 + c1 * 4096 + c2 * 64 + c3
    ensures b / 262144 % 64 == c0 && b / 4096 % 64 == c1 && b / 64 % 64 == c2 && b % 64 == c3
  {
    Parts(b, 262144, c0, c1 * 4096 + c2 * 64 + c3);
    Parts(b, 4096, c0 * 64 + c1, c2 * 64 + c3);
    Parts(b, 64, c0 * 4096 + c1 * 64 + c2, c3);
    Parts(c0 * 64 + c1, 64, c0, c1);
    Parts(c0 * 4096 + c1 * 64 + c2, 64, c0 * 64 + c1, c2);
  }

  /** And into three eight-bit parts. */
  lemma {:induction false} CutInThree(b: nat, x0: Byte, x1: Byte, x2: Byte)
    requires b == x0 * 65536 + x1 * 256 + x2
    ensures b / 65536 % 256 == x0 && b / 256 % 256 == x1 && b % 256 == x2
  {
    Parts(b, 65536, x0, x1 * 256 + x2);
    Parts(b, 256, x0 * 256 + x1, x2);
    Parts(x0 * 256 + x1, 256, x0, x1);
  }

  /** The word of three bytes, and of four codes. */
  function ByteWord(x: Byte, y: Byte, z: Byte): nat
  {
    x * 65536 + y * 256 + z
  }

  function CodeWord(p: Code, q: Code, r: Code, s: Code): nat
  {
    p * 262144 + q * 4096 + r * 64 + s
  }

  /** Block `i` of the bytes and of the codes is the same word. */
  ghost predicate SameWord(x: seq<Byte>, c: seq<Code>, i: nat)
    requires 3 * i + 3 <= |x| && 4 * i + 4 <= |c|
  {
    ByteWord(x[3 * i], x[3 * i + 1], x[3 * i + 2]) == CodeWord(c[4 * i], c[4 * i + 1], c[4 * i + 2], c[4 * i + 3])
  }

  /** The first `n` blocks agree. */
  ghost predicate SameWords(x: seq<Byte>, c: seq<Code>, n: nat)
  {
    && 3 * n <= |x| && 4 * n <= |c|
    && forall i: nat :: i < n ==> SameWord(x, c, i)
  }

  /** Both groupings of the same bits make the same word. */
  lemma {:induction false} WordOfCodes(x: Octet, y: Octet, z: Octet, p: Sextet, q: Sextet, r: Sextet, s: Sextet)
    requires [p, q, r, s] == Block4(x, y, z)
    ensures ByteWord(ByteOf(x), ByteOf(y), ByteOf(z)) == CodeWord(CodeOf(p), CodeOf(q), CodeOf(r), CodeOf(s))
  {
    var c := Block4(x, y, z);
    assert p == c[0] && q == c[1] && r == c[2] && s == c[3];
  }

  lemma {:induction false} WordOfBytes(p: Sextet, q: Sextet, r: Sextet, s: Sextet, x: Octet, y: Octet, z: Octet)
    requires [x, y, z] == Block3(p, q, r, s)
    ensures ByteWord(ByteOf(x), ByteOf(y), ByteOf(z)) == CodeWord(CodeOf(p), CodeOf(q), CodeOf(r), CodeOf(s))
  {
    var b := Block3(p, q, r, s);
    assert x == b[0] && y == b[1] && z == b[2];
  }

  function Numbers(t: seq<Sextet>): (c: seq<Code>)
    ensures |c| == |t| && forall i :: 0 <= i < |t| ==> c[i] == CodeOf(t[i])
  {
    seq(|t|, i requires 0 <= i < |t| => CodeOf(t[i]))
  }

  function Chars(c: seq<Code>): (s: string)
    ensures |s| == |c| && forall i :: 0 <= i < |c| ==> s[i] == CodeToChar(c[i])
  {
    seq(|c|, i requires 0 <= i < |c| => CodeToChar(c[i]))
  }

  // ----- encoding ------------------------------------------------------------

  /** Where the codes of the blocks lie. */
  lemma {:induction false} CodesFrom(o: seq<Octet>, i: nat)
    requires 3 * i <= |o|
    ensures 4 * i <= |Codes(o)| && Codes(o)[4 * i..] == Codes(o[3 * i..])
  {
    if i > 0 {
      CodesFrom(o[3..], i - 1);
      assert o[3..][3 * (i - 1)..] == o[3 * i..];
      assert Codes(o)[4..] == Codes(o[3..]);
      assert Codes(o)[4 * i..] == Codes(o)[4..][4 * (i - 1)..];
    } else {
      assert o[0..] == o && Codes(o)[0..] == Codes(o);
    }
  }

  /** The codes of block `i`. */
  lemma {:induction false} CodesOfBlock(o: seq<Octet>, i: nat, t: seq<Sextet>)
    requires 3 * i + 3 <= |o| && t == Codes(o)
    ensures 4 * i + 4 <= |t|
    ensures [t[4 * i], t[4 * i + 1], t[4 * i + 2], t[4 * i + 3]] == Block4(o[3 * i], o[3 * i + 1], o[3 * i + 2])
  {
    CodesFrom(o, i);
    var y := o[3 * i..];
    var d := t[4 * i..];
    assert d == Codes(y);
    assert d[0] == t[4 * i] && d[1] == t[4 * i + 1] && d[2] == t[4 * i + 2] && d[3] == t[4 * i + 3];
    assert d[..4] == Block4(y[0], y[1], y[2]);
  }

  /** The bytes have these bits. */
  ghost predicate BitsOf(x: seq<Byte>, o: seq<Octet>)
  {
    |o| == |x| && forall i :: 0 <= i < |x| ==> x[i] == ByteOf(o[i])
  }

  lemma {:induction false} BitsOfOctets(x: seq<Byte>)
    ensures BitsOf(x, ToOctets(x))
  {
    forall i | 0 <= i < |x|
      ensures x[i] == ByteOf(ToOctets(x)[i])
    {
      ByteBack(x[i]);
    }
  }

  lemma {:induction false} EncodedWord(x: seq<Byte>, o: seq<Octet>, t: seq<Sextet>, i: nat)
    requires BitsOf(x, o) && t == Codes(o) && 3 * i + 3 <= |x|
    ensures 4 * i + 4 <= |t| && SameWord(x, Numbers(t), i)
  {
    CodesOfBlock(o, i, t);
    WordOfCodes(o[3 * i], o[3 * i + 1], o[3 * i + 2], t[4 * i], t[4 * i + 1], t[4 * i + 2], t[4 * i + 3]);
  }

  lemma {:induction false} EncodedWords(x: seq<Byte>, o: seq<Octet>, t: seq<Sextet>, n: nat)
    requires BitsOf(x, o) && t == Codes(o) && 3 * n <= |x|
    ensures SameWords(x, Numbers(t), n)
  {
    CodesFrom(o, n);
    forall i: nat | i < n
      ensures 4 * i + 4 <= |t| && SameWord(x, Numbers(t), i)
    {
      EncodedWord(x, o, t, i);
    }
  }

  /** The word of the bytes after the full blocks, zeros appended. */
  ghost predicate SameTail(x: seq<Byte>, c: seq<Code>)
  {
    && (|x| == 1 ==> |c| == 2 && ByteWord(x[0], 0, 0) == CodeWord(c[0], c[1], 0, 0))
    && (|x| == 2 ==> |c| == 3 && ByteWord(x[0], x[1], 0) == CodeWord(c[0], c[1], c[2], 0))
  }

  lemma {:induction false} WordOfOne(o: Octet, p: Sextet, q: Sextet)
    requires p == Sextet(o.a, o.b, o.c) && q == Sextet(o.d, 0, 0)
    ensures ByteWord(ByteOf(o), 0, 0) == CodeWord(CodeOf(p), CodeOf(q), 0, 0)
  {
  }

  lemma {:induction false} WordOfTwo(o: Octet, v: Octet, p: Sextet, q: Sextet, r: Sextet)
    requires p == Sextet(o.a, o.b, o.c) && q == Sextet(o.d, v.a, v.b) && r == Sextet(v.c, v.d, 0)
    ensures ByteWord(ByteOf(o), ByteOf(v), 0) == CodeWord(CodeOf(p), CodeOf(q), CodeOf(r), 0)
  {
  }

  lemma {:induction false} CodesOfOne(o: Octet) returns (p: Sextet, q: Sextet)
    ensures p == Sextet(o.a, o.b, o.c) && q == Sextet(o.d, 0, 0) && Codes([o]) == [p, q]
  {
    p, q := Sextet(o.a, o.b, o.c), Sextet(o.d, 0, 0);
  }

  lemma {:induction false} CodesOfTwo(o: Octet, v: Octet) returns (p: Sextet, q: Sextet, r: Sextet)
    ensures p == Sextet(o.a, o.b, o.c) && q == Sextet(o.d, v.a, v.b) && r == Sextet(v.c, v.d, 0)
    ensures Codes([o, v]) == [p, q, r]
  {
    p, q, r := Sextet(o.a, o.b, o.c), Sextet(o.d, v.a, v.b), Sextet(v.c, v.d, 0);
  }

  lemma {:induction false} EncodedOne(x: Byte, o: Octet)
    requires x == ByteOf(o)
    ensures SameTail([x], Numbers(Codes([o])))
  {
    var p, q := CodesOfOne(o);
    WordOfOne(o, p, q);
    assert Numbers([p, q]) == [CodeOf(p), CodeOf(q)];
  }

  lemma {:induction false} EncodedTwo(x: Byte, y: Byte, o: Octet, v: Octet)
    requires x == ByteOf(o) && y == ByteOf(v)
    ensures SameTail([x, y], Numbers(Codes([o, v])))
  {
    var p, q, r := CodesOfTwo(o, v);
    WordOfTwo(o, v, p, q, r);
    assert Numbers([p, q, r]) == [CodeOf(p), CodeOf(q), CodeOf(r)];
  }

  lemma {:induction false} EncodedTail(x: seq<Byte>, o: seq<Octet>)
    requires BitsOf(x, o)
    ensures SameTail(x, Numbers(Codes(o)))
  {
    if |o| == 1 {
      assert o == [o[0]] && x == [x[0]];
      EncodedOne(x[0], o[0]);
    } else if |o| == 2 {
      assert o == [o[0], o[1]] && x == [x[0], x[1]];
      EncodedTwo(x[0], x[1], o[0], o[1]);
    }
  }

  /** The codes of the encoding, related to the bytes word by word. */
  lemma {:induction false} EncodingWords(x: seq<Byte>) returns (c: seq<Code>)
    ensures |c| == TextLength(|x|) && Chars(c) == EncodeNoPad(x)
    ensures SameWords(x, c, |x| / 3) && SameTail(x[3 * (|x| / 3)..], c[4 * (|x| / 3)..])
  {
    var o := ToOctets(x);
    var t := Codes(o);
    var n := |x| / 3;
    c := Numbers(t);
    BitsOfOctets(x);
    CodesLength(o);
    EncodedWords(x, o, t, n);
    CodesFrom(o, n);
    EncodedTail(x[3 * n..], o[3 * n..]);
    assert Numbers(t[4 * n..]) == c[4 * n..];
    assert Chars(c) == Text(t);
  }

  /** Writes the first `n` characters of the word. */
  method PutChars(out: array<char>, at: nat, b: nat, n: nat, ghost c: seq<Code>)
    requires n <= |c| == 4 && at + n <= out.Length && b == CodeWord(c[0], c[1], c[2], c[3])
    modifies out
    ensures out[..at + n] == old(out[..at]) + Chars(c[..n])
  {
    CutInFour(b, c[0], c[1], c[2], c[3]);
    if n > 0 {
      out[at] := CodeToChar(b / 262144 % 64);
    }
    if n > 1 {
      out[at + 1] := CodeToChar(b / 4096 % 64);
    }
    if n > 2 {
      out[at + 2] := CodeToChar(b / 64 % 64);
    }
    if n > 3 {
      out[at + 3] := CodeToChar(b % 64);
    }
  }

  lemma {:induction false} CharsGrow(c: seq<Code>, i: nat, j: nat)
    requires i <= j <= |c|
    ensures Chars(c[..j]) == Chars(c[..i]) + Chars(c[i..j])
  {
  }

  /** All full blocks. */
  method PutBlocks(x: seq<Byte>, out: array<char>, full: nat, ghost c: seq<Code>)
    requires SameWords(x, c, full) && 4 * full <= out.Length
    modifies out
    ensures out[..4 * full] == Chars(c[..4 * full])
  {
    for i := 0 to full
      invariant out[..4 * i] == Chars(c[..4 * i])
    {
      assert SameWord(x, c, i);
      ghost var block := c[4 * i..4 * i + 4];
      CharsGrow(c, 4 * i, 4 * i + 4);
      PutChars(out, 4 * i, ByteWord(x[3 * i], x[3 * i + 1], x[3 * i + 2]), 4, block);
      assert block[..4] == block;
    }
  }

  /** The last, partial block and the terminator. */
  method PutTail(out: array<char>, at: nat, tail: seq<Byte>, ghost c: seq<Code>)
    requires |tail| < 3 && SameTail(tail, c) && |c| == TextLength(|tail|) && at + |c| < out.Length
    modifies out
    ensures out[..at + TextLength(|tail|)] == old(out[..at]) + Chars(c)
    ensures out[at + TextLength(|tail|)] == NUL
  {
    if |tail| == 1 {
      ghost var d := c + [0, 0];
      PutChars(out, at, ByteWord(tail[0], 0, 0), 2, d);
      assert d[..2] == c;
    } else if |tail| == 2 {
      ghost var d := c + [0];
      PutChars(out, at, ByteWord(tail[0], tail[1], 0), 3, d);
      assert d[..3] == c;
    }
    ghost var text := out[..at + TextLength(|tail|)];
    out[at + TextLength(|tail|)] := NUL;
    assert out[..at + TextLength(|tail|)] == text;
  }

  /** Full blocks, the partial one, the terminator. */
  method PutText(x: seq<Byte>, out: array<char>, ghost c: seq<Code>)
    requires TextLength(|x|) < out.Length && |c| == TextLength(|x|)
    requires SameWords(x, c, |x| / 3) && SameTail(x[3 * (|x| / 3)..], c[4 * (|x| / 3)..])
    modifies out
    ensures out[..TextLength(|x|)] == Chars(c) && out[TextLength(|x|)] == NUL
  {
    var full := |x| / 3;
    PutBlocks(x, out, full, c);
    CharsGrow(c, 4 * full, |c|);
    assert c[..|c|] == c && c[4 * full..|c|] == c[4 * full..];
    PutTail(out, 4 * full, x[3 * full..], c[4 * full..]);
  }

  /** bin_to_b64_nopad: -1 if the buffer is too small, else the text length. */
  method BinToB64NoPad(x: seq<Byte>, out: array<char>, maxLen: nat) returns (ret: int)
    requires maxLen <= out.Length && 1 <= out.Length
    modifies out
    ensures ret == -1 <==> x != [] && maxLen < TextLength(|x|) + 1
    ensures ret != -1 ==> 0 <= ret == TextLength(|x|) < out.Length && out[..ret] == EncodeNoPad(x) && out[ret] == NUL
  {
    if |x| == 0 {
      out[0] := NUL;
      return 0;
    }
    if maxLen < TextLength(|x|) + 1 {
      return -1;
    }
    ghost var c := EncodingWords(x);
    PutText(x, out, c);
    ret := TextLength(|x|);
  }

  /** bin_to_b64: the same, then the padding if there is room for it. */
  method BinToB64(x: seq<Byte>, out: array<char>, maxLen: nat) returns (ret: int)
    requires maxLen <= out.Length && 1 <= out.Length
    modifies out
    ensures ret == -1 <==> x != [] && maxLen < |Encode(x)| + 1
    ensures ret != -1 ==> 0 <= ret < out.Length && out[..ret] == Encode(x) && out[ret] == NUL
  {
    CodesLength(ToOctets(x));
    ret := BinToB64NoPad(x, out, maxLen);
    if ret == -1 {
      return;
    }
    ghost var text := out[..ret];
    if ret % 4 == 2 {
      if maxLen < ret + 3 {
        return -1;
      }
      out[ret], out[ret + 1], out[ret + 2] := PAD, PAD, NUL;
      assert out[..ret] == text;
      ret := ret + 2;
    } else if ret % 4 == 3 {
      if maxLen < ret + 2 {
        return -1;
      }
      out[ret], out[ret + 1] := PAD, NUL;
      assert out[..ret] == text;
      ret := ret + 1;
    }
  }

  /** The string in a buffer: what comes before its first NUL. */
  method StringIn(out: array<char>, ghost t: string) returns (text: string)
    requires |t| < out.Length && out[..|t|] == t && out[|t|] == NUL
    requires forall i :: 0 <= i < |t| ==> t[i] != NUL
    ensures text == t
  {
    var n := 0;
    while out[n] != NUL
      invariant 0 <= n <= |t|
      decreases |t| - n
    {
      n := n + 1;
    }
    text := out[..n];
  }

  /** An encoding contains no NUL. */
  lemma {:induction false} NoNul(x: seq<Byte>)
    ensures forall i :: 0 <= i < |Encode(x)| ==> Encode(x)[i] != NUL
  {
    var t := Codes(ToOctets(x));
    forall i | 0 <= i < |t|
      ensures Text(t)[i] != NUL
    {
      CharRoundTrip(CodeOf(t[i]));
    }
  }

  /** Base64::encode: its buffer of four characters a byte and one more is always
      large enough, so it returns the encoding of every input. */
  method EncodeString(x: seq<Byte>) returns (text: string)
    ensures text == Encode(x)
  {
    CodesLength(ToOctets(x));
    var out := new char[4 * |x| + 1];
    var ret := BinToB64(x, out, 4 * |x| + 1);
    NoNul(x);
    text := StringIn(out, Encode(x));
  }

  // ----- decoding ------------------------------------------------------------

  datatype Outcome = Ret(n: int) | Exited

  /** `c` holds the codes of the characters of `s`. */
  ghost predicate Reads(s: string, c: seq<Code>)
  {
    |c| == |s| && forall j :: 0 <= j < |s| ==> CharToCode(s[j]) == Some(c[j])
  }

  /** The codes of one block, unless a character is not in the alphabet. */
  method ReadCodes(s: string) returns (c: Option<seq<Code>>)
    ensures c.Some? <==> InAlphabet(s)
    ensures c.Some? ==> Reads(s, c.value)
  {
    var codes: seq<Code> := [];
    for i := 0 to |s|
      invariant |codes| == i
      invariant forall j :: 0 <= j < i ==> CharToCode(s[j]) == Some(codes[j])
    {
      var code := CharToCode(s[i]);
      if code.None? {
        return None;
      }
      codes := codes + [code.value];
    }
    c := Some(codes);
  }

  /** Where the bytes of the blocks lie. */
  lemma {:induction false} OctetsFrom(c: seq<Sextet>, i: nat)
    requires 4 * i <= |c|
    ensures 3 * i <= |Octets(c)| && Octets(c)[3 * i..] == Octets(c[4 * i..])
  {
    if i > 0 {
      OctetsFrom(c[4..], i - 1);
      assert c[4..][4 * (i - 1)..] == c[4 * i..];
      assert Octets(c)[3..] == Octets(c[4..]);
      assert Octets(c)[3 * i..] == Octets(c)[3..][3 * (i - 1)..];
    } else {
      assert c[0..] == c && Octets(c)[0..] == Octets(c);
    }
  }

  /** The bytes of block `i`. */
  lemma {:induction false} OctetsOfBlock(t: seq<Sextet>, i: nat, o: seq<Octet>)
    requires 4 * i + 4 <= |t| && o == Octets(t)
    ensures 3 * i + 3 <= |o|
    ensures [o[3 * i], o[3 * i + 1], o[3 * i + 2]] == Block3(t[4 * i], t[4 * i + 1], t[4 * i + 2], t[4 * i + 3])
  {
    OctetsFrom(t, i);
    var y := t[4 * i..];
    var d := o[3 * i..];
    assert d == Octets(y);
    assert d[0] == o[3 * i] && d[1] == o[3 * i + 1] && d[2] == o[3 * i + 2];
    assert d[..3] == Block3(y[0], y[1], y[2], y[3]);
  }

  lemma {:induction false} DecodedWord(t: seq<Sextet>, o: seq<Octet>, c: seq<Code>, i: nat)
    requires c == Numbers(t) && o == Octets(t) && 4 * i + 4 <= |t|
    ensures 3 * i + 3 <= |o| && SameWord(ToBytes(o), c, i)
  {
    OctetsOfBlock(t, i, o);
    WordOfBytes(t[4 * i], t[4 * i + 1], t[4 * i + 2], t[4 * i + 3], o[3 * i], o[3 * i + 1], o[3 * i + 2]);
  }

  lemma {:induction false} DecodedWords(t: seq<Sextet>, o: seq<Octet>, c: seq<Code>, n: nat)
    requires c == Numbers(t) && o == Octets(t) && 4 * n <= |t|
    ensures SameWords(ToBytes(o), c, n)
  {
    OctetsFrom(t, n);
    forall i: nat | i < n
      ensures 3 * i + 3 <= |o| && SameWord(ToBytes(o), c, i)
    {
      DecodedWord(t, o, c, i);
    }
  }

  /** The word of the codes after the full blocks begins with the bytes left; the
      rest of it, bits that no byte uses, is dropped. */
  ghost predicate FrontOfTail(c: seq<Code>, x: seq<Byte>, dropped: seq<Byte>)
  {
    && (|c| == 2 ==> |x| == 1 && |dropped| == 2 && CodeWord(c[0], c[1], 0, 0) == ByteWord(x[0], dropped[0], dropped[1]))
    && (|c| == 3 ==> |x| == 2 && |dropped| == 1 && CodeWord(c[0], c[1], c[2], 0) == ByteWord(x[0], x[1], dropped[0]))
  }

  lemma {:induction false} WordOfTwoCodes(p: Sextet, q: Sextet, x: Octet, y: Octet)
    requires x == Octet(p.a, p.b, p.c, q.a) && y == Octet(q.b, q.c, 0, 0)
    ensures CodeWord(CodeOf(p), CodeOf(q), 0, 0) == ByteWord(ByteOf(x), ByteOf(y), 0)
  {
  }

  lemma {:induction false} WordOfThreeCodes(p: Sextet, q: Sextet, r: Sextet, x: Octet, y: Octet, z: Octet)
    requires x == Octet(p.a, p.b, p.c, q.a) && y == Octet(q.b, q.c, r.a, r.b) && z == Octet(r.c, 0, 0, 0)
    ensures CodeWord(CodeOf(p), CodeOf(q), CodeOf(r), 0) == ByteWord(ByteOf(x), ByteOf(y), ByteOf(z))
  {
  }

  lemma {:induction false} OctetsOfTwo(p: Sextet, q: Sextet) returns (x: Octet, y: Octet)
    ensures Octets([p, q]) == [x] && x == Octet(p.a, p.b, p.c, q.a) && y == Octet(q.b, q.c, 0, 0)
  {
    x, y := Octet(p.a, p.b, p.c, q.a), Octet(q.b, q.c, 0, 0);
  }

  lemma {:induction false} OctetsOfThree(p: Sextet, q: Sextet, r: Sextet) returns (x: Octet, y: Octet, z: Octet)
    ensures x == Octet(p.a, p.b, p.c, q.a) && y == Octet(q.b, q.c, r.a, r.b) && z == Octet(r.c, 0, 0, 0)
    ensures Octets([p, q, r]) == [x, y]
  {
    x, y, z := Octet(p.a, p.b, p.c, q.a), Octet(q.b, q.c, r.a, r.b), Octet(r.c, 0, 0, 0);
  }

  lemma {:induction false} DecodedTwo(p: Sextet, q: Sextet) returns (dropped: seq<Byte>)
    ensures FrontOfTail(Numbers([p, q]), ToBytes(Octets([p, q])), dropped)
  {
    var x, y := OctetsOfTwo(p, q);
    WordOfTwoCodes(p, q, x, y);
    assert Numbers([p, q]) == [CodeOf(p), CodeOf(q)];
    assert ToBytes([x]) == [ByteOf(x)];
    dropped := [ByteOf(y), 0];
  }

  lemma {:induction false} DecodedThree(p: Sextet, q: Sextet, r: Sextet) returns (dropped: seq<Byte>)
    ensures FrontOfTail(Numbers([p, q, r]), ToBytes(Octets([p, q, r])), dropped)
  {
    var x, y, z := OctetsOfThree(p, q, r);
    WordOfThreeCodes(p, q, r, x, y, z);
    assert Numbers([p, q, r]) == [CodeOf(p), CodeOf(q), CodeOf(r)];
    assert ToBytes([x, y]) == [ByteOf(x), ByteOf(y)];
    dropped := [ByteOf(z)];
  }

  lemma {:induction false} DecodedTail(t: seq<Sextet>) returns (dropped: seq<Byte>)
    ensures FrontOfTail(Numbers(t), ToBytes(Octets(t)), dropped)
  {
    if |t| == 2 {
      assert t == [t[0], t[1]];
      dropped := DecodedTwo(t[0], t[1]);
    } else if |t| == 3 {
      assert t == [t[0], t[1], t[2]];
      dropped := DecodedThree(t[0], t[1], t[2]);
    } else {
      dropped := [];
    }
  }

  lemma {:induction false} NumbersOfText(s: string, c: seq<Code>)
    requires InAlphabet(s) && Reads(s, c)
    ensures Numbers(FromText(s)) == c
  {
    forall i | 0 <= i < |c|
      ensures Numbers(FromText(s))[i] == c[i]
    {
      CodeBack(c[i]);
    }
  }

  /** The bytes a text decodes to, related to its codes word by word. */
  lemma {:induction false} DecodingWords(s: string, c: seq<Code>) returns (x: seq<Byte>, dropped: seq<Byte>)
    requires InAlphabet(s) && Reads(s, c)
    ensures x == ToBytes(Octets(FromText(s))) && |x| == DataLength(|c|)
    ensures SameWords(x, c, |c| / 4) && FrontOfTail(c[4 * (|c| / 4)..], x[3 * (|c| / 4)..], dropped)
  {
    var t := FromText(s);
    var n := |c| / 4;
    NumbersOfText(s, c);
    x, dropped := DecodingFrom(t, c, n);
  }

  lemma {:induction false} DecodingFrom(t: seq<Sextet>, c: seq<Code>, n: nat) returns (x: seq<Byte>, dropped: seq<Byte>)
    requires c == Numbers(t) && 4 * n <= |t|
    ensures x == ToBytes(Octets(t)) && |x| == DataLength(|c|)
    ensures SameWords(x, c, n) && FrontOfTail(c[4 * n..], x[3 * n..], dropped)
  {
    var o := Octets(t);
    x := ToBytes(o);
    OctetsLength(t);
    DecodedWords(t, o, c, n);
    OctetsFrom(t, n);
    dropped := DecodedTail(t[4 * n..]);
    assert Numbers(t[4 * n..]) == c[4 * n..];
    assert ToBytes(o[3 * n..]) == x[3 * n..];
  }

  /** Writes the first `n` bytes of the word, which are those of `x` if it is its word. */
  method PutBytes(out: array<Byte>, at: nat, b: nat, n: nat, ghost x: seq<Byte>)
    requires n <= |x| == 3 && at + n <= out.Length
    modifies out
    ensures b == ByteWord(x[0], x[1], x[2]) ==> out[..at + n] == old(out[..at]) + x[..n]
  {
    if b == ByteWord(x[0], x[1], x[2]) {
      CutInThree(b, x[0], x[1], x[2]);
    }
    if n > 0 {
      out[at] := b / 65536 % 256;
    }
    if n > 1 {
      out[at + 1] := b / 256 % 256;
    }
    if n > 2 {
      out[at + 2] := b % 256;
    }
  }

  lemma {:induction false} BytesGrow(x: seq<Byte>, i: nat, j: nat)
    requires i <= j <= |x|
    ensures x[..j] == x[..i] + x[i..j]
  {
  }

  /** `x` is what `s` decodes to, if it decodes: its words are those of the codes `c`. */
  ghost predicate Decodes(s: string, c: seq<Code>, x: seq<Byte>, dropped: seq<Byte>)
  {
    && |c| == |s| && |x| == DataLength(|s|)
    && (InAlphabet(s) ==>
          && Reads(s, c) && SameWords(x, c, |c| / 4)
          && FrontOfTail(c[4 * (|c| / 4)..], x[3 * (|c| / 4)..], dropped))
  }

  /** All full blocks; false stands for the exit on a character outside the alphabet. */
  method PutAllBytes(s: string, out: array<Byte>, full: nat, ghost c: seq<Code>, ghost x: seq<Byte>)
    returns (ok: bool)
    requires |c| == |s| && 4 * full <= |s| && 3 * full <= |x| && 3 * full <= out.Length
    requires InAlphabet(s) ==> Reads(s, c) && SameWords(x, c, full)
    modifies out
    ensures ok <==> InAlphabet(s[..4 * full])
    ensures InAlphabet(s) ==> out[..3 * full] == x[..3 * full]
  {
    for i := 0 to full
      invariant InAlphabet(s[..4 * i])
      invariant InAlphabet(s) ==> out[..3 * i] == x[..3 * i]
    {
      ghost var block := x[3 * i..3 * i + 3];
      var read := ReadCodes(s[4 * i..4 * i + 4]);
      AlphabetGrows(s, 4 * i, 4 * i + 4);
      if read.None? {
        AlphabetFront(s, 4 * i + 4, 4 * full);
        AlphabetFront(s, 4 * i + 4, |s|);
        assert s[..|s|] == s;
        return false;
      }
      var d := read.value;
      if InAlphabet(s) {
        SameCodes(s, c, d, 4 * i);
        assert SameWord(x, c, i);
      }
      BytesGrow(x, 3 * i, 3 * i + 3);
      PutBytes(out, 3 * i, CodeWord(d[0], d[1], d[2], d[3]), 3, block);
      assert block[..3] == block;
    }
    ok := true;
  }

  lemma {:induction false} AlphabetGrows(s: string, i: nat, j: nat)
    requires i <= j <= |s|
    ensures InAlphabet(s[..j]) <==> InAlphabet(s[..i]) && InAlphabet(s[i..j])
  {
    assert s[..j] == s[..i] + s[i..j];
    forall k | i <= k < j
      ensures s[k] == s[i..j][k - i] == s[..j][k]
    {
    }
  }

  lemma {:induction false} AlphabetFront(s: string, i: nat, j: nat)
    requires i <= j <= |s|
    ensures InAlphabet(s[..j]) ==> InAlphabet(s[..i])
  {
    assert forall k :: 0 <= k < i ==> s[..i][k] == s[..j][k];
  }

  lemma {:induction false} SameCodes(s: string, c: seq<Code>, d: seq<Code>, i: nat)
    requires Reads(s, c) && i + |d| <= |s| && Reads(s[i..i + |d|], d)
    ensures d == c[i..i + |d|]
  {
    forall k | 0 <= k < |d|
      ensures d[k] == c[i + k]
    {
      assert s[i..i + |d|][k] == s[i + k];
    }
  }

  /** The last, partial block. */
  method PutLastBytes(out: array<Byte>, at: nat, c: seq<Code>, ghost x: seq<Byte>, ghost dropped: seq<Byte>)
    requires |c| < 4 && |c| != 1 && FrontOfTail(c, x, dropped) && |x| == DataLength(|c|) && at + |x| <= out.Length
    modifies out
    ensures out[..at + DataLength(|c|)] == old(out[..at]) + x
  {
    ghost var word := x + dropped;
    if |c| == 2 {
      PutBytes(out, at, CodeWord(c[0], c[1], 0, 0), 1, word);
      assert word[..1] == x;
    } else if |c| == 3 {
      PutBytes(out, at, CodeWord(c[0], c[1], c[2], 0), 2, word);
      assert word[..2] == x;
    }
  }

  /** Full blocks, then the partial one. */
  method PutData(s: string, out: array<Byte>, ghost c: seq<Code>, ghost x: seq<Byte>, ghost dropped: seq<Byte>)
    returns (ok: bool)
    requires |s| % 4 != 1 && DataLength(|s|) <= out.Length && Decodes(s, c, x, dropped)
    modifies out
    ensures ok <==> InAlphabet(s)
    ensures ok ==> out[..DataLength(|s|)] == x
  {
    var full := |s| / 4;
    ok := PutAllBytes(s, out, full, c, x);
    AlphabetGrows(s, 4 * full, |s|);
    assert s[..|s|] == s && s[4 * full..|s|] == s[4 * full..];
    if !ok {
      return;
    }
    var read := ReadCodes(s[4 * full..]);
    ok := read.Some?;
    if ok {
      SameCodes(s, c, read.value, 4 * full);
      assert read.value == c[4 * full..];
      assert x == x[..3 * full] + x[3 * full..];
      PutLastBytes(out, 3 * full, read.value, x[3 * full..], dropped);
    }
  }

  lemma {:induction false} DecodingExists(s: string) returns (c: seq<Code>, x: seq<Byte>, dropped: seq<Byte>)
    ensures Decodes(s, c, x, dropped)
    ensures InAlphabet(s) ==> x == ToBytes(Octets(FromText(s)))
  {
    if InAlphabet(s) {
      c := Numbers(FromText(s));
      TextReads(s, c);
      x, dropped := DecodingWords(s, c);
    } else {
      c, x, dropped := seq(|s|, _ => 0), seq(DataLength(|s|), _ => 0), [];
    }
  }

  lemma {:induction false} TextReads(s: string, c: seq<Code>)
    requires InAlphabet(s) && c == Numbers(FromText(s))
    ensures Reads(s, c)
  {
    forall j | 0 <= j < |s|
      ensures CharToCode(s[j]) == Some(c[j])
    {
      CodeBack(CharToCode(s[j]).value);
    }
  }

  /** b64_to_bin_nopad. */
  method B64ToBinNoPad(s: string, out: array<Byte>, maxLen: nat) returns (r: Outcome)
    requires maxLen <= out.Length
    modifies out
    ensures r == Ret(-1) <==> |s| % 4 == 1 || maxLen < DataLength(|s|)
    ensures r == Exited <==> |s| % 4 != 1 && DataLength(|s|) <= maxLen && !InAlphabet(s)
    ensures r.Ret? && r.n != -1 ==>
              0 <= r.n == DataLength(|s|) <= out.Length && DecodeNoPad(s) == Data(out[..r.n])
  {
    if |s| % 4 == 1 || maxLen < DataLength(|s|) {
      return Ret(-1);
    }
    ghost var c, x, dropped := DecodingExists(s);
    var ok := PutData(s, out, c, x, dropped);
    r := if ok then Ret(DataLength(|s|)) else Exited;
  }

  /** Base64::decode with b64_to_bin: the buffer of one byte a character suffices. */
  method DecodeString(s: string) returns (d: Decoded)
    ensures d == Decode(s)
  {
    var out := new Byte[|s|];
    var t := s;
    if |s| % 4 == 0 && |s| >= 4 {
      if s[|s| - 2] == PAD {
        t := s[..|s| - 2];
      } else if s[|s| - 1] == PAD {
        t := s[..|s| - 1];
      }
    }
    var r := B64ToBinNoPad(t, out, |s|);
    if r == Exited {
      d := Exit;
    } else if r.n == -1 {
      d := Error;
    } else {
      d := Data(out[..r.n]);
    }
  }
}
