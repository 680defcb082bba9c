/** Type-length-value lists in QMI messages: their byte form, the walker GetTLV
    and the indexed walk built on it. */
module QmiTlv {
  import opened Common

  datatype Tlv = Tlv(kind: Byte, value: seq<Byte>)

  function Low(n: nat): Byte { n % 256 }

  function High(n: nat): Byte { n / 256 % 256 }

  function Le16(lo: Byte, hi: Byte): nat { lo + 256 * hi }

  lemma Le16RoundTrip(n: nat)
    requires n < 65536
    ensures Le16(Low(n), High(n)) == n
  {
  }

  function Bytes(t: Tlv): (b: seq<Byte>)
    ensures |b| == 3 + |t.value|
  {
    [t.kind, Low(|t.value|), High(|t.value|)] + t.value
  }

  function Encode(tlvs: seq<Tlv>): seq<Byte>
  {
    if tlvs == [] then [] else Bytes(tlvs[0]) + Encode(tlvs[1..])
  }

  lemma {:induction false} EncodeAppend(a: seq<Tlv>, b: seq<Tlv>)
    ensures Encode(a + b) == Encode(a) + Encode(b)
  {
    if a == [] {
      assert a + b == b;
    } else {
      EncodeAppend(a[1..], b);
      assert (a + b)[1..] == a[1..] + b;
      assert Bytes(a[0]) + (Encode(a[1..]) + Encode(b)) == Bytes(a[0]) + Encode(a[1..]) + Encode(b);
    }
  }

  /** TLV values fit their 16-bit length field. */
  predicate Sized(tlvs: seq<Tlv>)
  {
    forall i :: 0 <= i < |tlvs| ==> |tlvs[i].value| < 65536
  }

  /** TLVs exactly tile the `len` bytes at `at`. */
  predicate Tiles(buf: seq<Byte>, at: nat, len: nat, tlvs: seq<Tlv>)
  {
    at + len <= |buf| && buf[at..at + len] == Encode(tlvs) && Sized(tlvs)
  }

  /** The TLV `t` stands at `at`. */
  predicate Holds(buf: seq<Byte>, at: nat, t: Tlv)
  {
    at + 3 + |t.value| <= |buf| && buf[at..at + 3 + |t.value|] == Bytes(t) && |t.value| < 65536
  }

  /** The three parts of a TLV read back. */
  lemma HeldParts(buf: seq<Byte>, p: nat, t: Tlv)
    requires Holds(buf, p, t)
    ensures buf[p] == t.kind && Le16(buf[p + 1], buf[p + 2]) == |t.value|
    ensures buf[p + 3..p + 3 + |t.value|] == t.value
  {
    var b := buf[p..p + 3 + |t.value|];
    assert b[0] == buf[p] && b[1] == buf[p + 1] && b[2] == buf[p + 2];
    assert b[3..] == t.value;
    assert b[3..] == buf[p + 3..p + 3 + |t.value|];
    Le16RoundTrip(|t.value|);
  }

  /** The first of some tiling TLVs stands at the front, the others tile the rest. */
  lemma TilesFirst(buf: seq<Byte>, at: nat, len: nat, tlvs: seq<Tlv>)
    requires Tiles(buf, at, len, tlvs) && tlvs != []
    ensures var size := 3 + |tlvs[0].value|;
            size <= len && Holds(buf, at, tlvs[0]) && Tiles(buf, at + size, len - size, tlvs[1..])
  {
    var size := 3 + |tlvs[0].value|;
    var e := buf[at..at + len];
    assert e == Bytes(tlvs[0]) + Encode(tlvs[1..]);
    assert buf[at..at + size] == e[..size] == Bytes(tlvs[0]);
    assert buf[at + size..at + len] == e[size..] == Encode(tlvs[1..]);
  }

  /** The byte form, written out: type, length with the low byte first, value. */
  lemma {:induction false} TlvLayout(t: Tlv)
    requires |t.value| < 65536
    ensures Encode([t]) == [t.kind, |t.value| % 256, |t.value| / 256] + t.value
  {
    assert [t][1..] == [] && Encode([t]) == Bytes(t) + [];
  }

  /** The TLV looked for: by type, or by position when the type is above 0x1000. */
  predicate Wanted(tlvs: seq<Tlv>, k: nat, tlvType: int)
    requires k < |tlvs|
  {
    if tlvType > 0x1000 then k + 1 + 0x1000 == tlvType else tlvs[k].kind == tlvType
  }

  /** Position of the first wanted TLV from position `k` on, or the end. */
  ghost function FirstWanted(tlvs: seq<Tlv>, k: nat, tlvType: int): (f: nat)
    requires k <= |tlvs|
    ensures k <= f <= |tlvs|
    ensures forall i :: k <= i < f ==> !Wanted(tlvs, i, tlvType)
    ensures f < |tlvs| ==> Wanted(tlvs, f, tlvType)
    decreases |tlvs| - k
  {
    if k == |tlvs| || Wanted(tlvs, k, tlvType) then k else FirstWanted(tlvs, k + 1, tlvType)
  }

  /** How many bytes the first `k` TLVs take. */
  ghost function Width(tlvs: seq<Tlv>, k: nat): nat
    requires k <= |tlvs|
  {
    if k == 0 then 0 else Width(tlvs, k - 1) + 3 + |tlvs[k - 1].value|
  }

  /** GetTLV on the message header at `hdr`: the offset of the first wanted TLV,
      or None for NULL. */
  method GetTlv(buf: seq<Byte>, hdr: nat, tlvType: int, ghost tlvs: seq<Tlv>) returns (found: Option<nat>)
    requires hdr + 4 <= |buf|
    requires Tiles(buf, hdr + 4, Le16(buf[hdr + 2], buf[hdr + 3]), tlvs)
    ensures var k := FirstWanted(tlvs, 0, tlvType);
            if k == |tlvs| then found == None
            else found == Some(hdr + 4 + Width(tlvs, k)) && Holds(buf, found.value, tlvs[k])
  {
    var length: nat := Le16(buf[hdr + 2], buf[hdr + 3]);
    var p: nat := hdr + 4;
    var find := 0;
    ghost var goal := FirstWanted(tlvs, 0, tlvType);
    assert tlvs[0..] == tlvs;
    while length >= 3
      invariant 0 <= find <= |tlvs| && Tiles(buf, p, length, tlvs[find..])
      invariant p == hdr + 4 + Width(tlvs, find) && goal == FirstWanted(tlvs, find, tlvType)
      decreases length
    {
      NextTlv(buf, p, length, tlvs, find);
      WantedNow(tlvs, find, tlvType);
      find := find + 1;
      var hit := if tlvType > 0x1000 then find + 0x1000 == tlvType else buf[p] == tlvType;
      assert hit <==> goal == find - 1;
      if hit {
        return Some(p);
      }
      var size := Le16(buf[p + 1], buf[p + 2]) + 3;
      length := length - size;
      p := p + size;
    }
    NoTlvLeft(buf, p, length, tlvs[find..]);
    found := None;
  }

  /** The walker stands at TLV k. */
  lemma {:induction false} NextTlv(buf: seq<Byte>, p: nat, length: nat, tlvs: seq<Tlv>, k: nat)
    requires k <= |tlvs| && Tiles(buf, p, length, tlvs[k..]) && length > 0
    ensures k < |tlvs| && Holds(buf, p, tlvs[k]) && buf[p] == tlvs[k].kind
    ensures Le16(buf[p + 1], buf[p + 2]) == |tlvs[k].value|
    ensures var size := 3 + |tlvs[k].value|; size <= length && Tiles(buf, p + size, length - size, tlvs[k + 1..])
  {
    var rest := tlvs[k..];
    assert rest != [];
    TilesFirst(buf, p, length, rest);
    HeldParts(buf, p, rest[0]);
    assert rest[1..] == tlvs[k + 1..];
  }

  lemma {:induction false} NoTlvLeft(buf: seq<Byte>, p: nat, length: nat, rest: seq<Tlv>)
    requires Tiles(buf, p, length, rest) && length < 3
    ensures rest == []
  {
    if rest != [] {
      TilesFirst(buf, p, length, rest);
    }
  }

  lemma {:induction false} WantedNow(tlvs: seq<Tlv>, k: nat, tlvType: int)
    requires k < |tlvs|
    ensures FirstWanted(tlvs, k, tlvType) == if Wanted(tlvs, k, tlvType) then k else FirstWanted(tlvs, k + 1, tlvType)
    ensures Width(tlvs, k + 1) == Width(tlvs, k) + 3 + |tlvs[k].value|
  {
  }

  /** The TLV at `p`, read through its own length field. */
  method ReadTlv(buf: seq<Byte>, p: nat, ghost expected: Tlv) returns (t: Tlv)
    requires Holds(buf, p, expected)
    ensures t == expected
  {
    HeldParts(buf, p, expected);
    t := Tlv(buf[p], buf[p + 3..p + 3 + Le16(buf[p + 1], buf[p + 2])]);
  }

  /** dump_tlv: the indexed walk visits each TLV once, in order. */
  method DumpTlv(buf: seq<Byte>, hdr: nat, ghost tlvs: seq<Tlv>) returns (seen: seq<Tlv>)
    requires hdr + 4 <= |buf|
    requires Tiles(buf, hdr + 4, Le16(buf[hdr + 2], buf[hdr + 3]), tlvs)
    ensures seen == tlvs
  {
    seen := [];
    while true
      invariant |seen| <= |tlvs| && seen == tlvs[..|seen|]
      decreases |tlvs| - |seen|
    {
      var found := GetTlv(buf, hdr, 0x1000 + |seen| + 1, tlvs);
      ghost var k := FirstWanted(tlvs, 0, 0x1000 + |seen| + 1);
      if |seen| < |tlvs| {
        assert Wanted(tlvs, |seen|, 0x1000 + |seen| + 1);
      }
      if found.None? {
        break;
      }
      var t := ReadTlv(buf, found.value, tlvs[k]);
      seen := seen + [t];
    }
  }
}
