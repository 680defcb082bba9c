/** The message builders: a 256-byte buffer written TLV by TLV, each string with a
    terminator that the next TLV overwrites or that falls behind the message. */
module QmiBuild {
  import opened Common
  import opened QmiTlv

  const BUFSIZE: nat := 256
  const BODY: nat := 13       // QMI header 6, QMUX header 3, message header 4

  type Text = seq<Byte>

  /** The part of the profile the requests carry; None stands for NULL. */
  datatype Profile = Profile(
    apn: Option<Text>, user: Option<Text>, password: Option<Text>,
    auth: Byte, iptype: Byte, index: Byte, family: Byte)

  /** C strings hold no NUL. */
  predicate IsText(t: Option<Text>)
  {
    t.Some? ==> 0 !in t.value
  }

  predicate IsProfile(p: Profile)
  {
    IsText(p.apn) && IsText(p.user) && IsText(p.password)
  }

  /** One TLV if the text is there. */
  function Maybe(kind: Byte, t: Option<Text>): seq<Tlv>
  {
    if t.Some? then [Tlv(kind, t.value)] else []
  }

  function MaybeByte(there: bool, kind: Byte, b: Byte): seq<Tlv>
  {
    Maybe(kind, if there then Some([b]) else None)
  }

  function MaybeSize(t: Option<Text>): nat
  {
    if t.Some? then 3 + |t.value| else 0
  }

  lemma EncodeOne(t: Tlv)
    ensures Encode([t]) == Bytes(t)
  {
    assert [t][1..] == [];
  }

  // ----- writing into the buffer ---------------------------------------------

  /** `n` bytes from BODY on hold exactly these TLVs. */
  ghost predicate Written(buf: array<Byte>, n: nat, tlvs: seq<Tlv>)
    reads buf
  {
    BODY + n <= buf.Length && buf[BODY..BODY + n] == Encode(tlvs)
  }

  lemma WrittenMore(buf: array<Byte>, n: nat, tlvs: seq<Tlv>, t: Tlv)
    requires Written(buf, n, tlvs)
    requires BODY + n + 3 + |t.value| <= buf.Length
    requires buf[BODY + n..BODY + n + 3 + |t.value|] == Bytes(t)
    ensures Written(buf, n + 3 + |t.value|, tlvs + [t])
  {
    EncodeAppend(tlvs, [t]);
    EncodeOne(t);
    assert buf[BODY..BODY + n + 3 + |t.value|] == buf[BODY..BODY + n] + buf[BODY + n..BODY + n + 3 + |t.value|];
  }

  method PutByte(buf: array<Byte>, n: nat, kind: Byte, b: Byte, ghost tlvs: seq<Tlv>) returns (n': nat)
    requires Written(buf, n, tlvs) && BODY + n + 4 <= buf.Length
    modifies buf
    ensures n' == n + 4 && Written(buf, n', tlvs + [Tlv(kind, [b])])
    ensures buf[..BODY] == old(buf[..BODY])
  {
    var at := BODY + n;
    ghost var before := buf[BODY..at];
    buf[at], buf[at + 1], buf[at + 2], buf[at + 3] := kind, 1, 0, b;
    n' := n + 4;
    assert buf[BODY..at] == before;
    assert buf[at..at + 4] == Bytes(Tlv(kind, [b]));
    WrittenMore(buf, n, tlvs, Tlv(kind, [b]));
  }

  /** qstrcpy: the bytes and one terminator behind them. */
  method CopyText(buf: array<Byte>, at: nat, text: Text)
    requires at + |text| + 1 <= buf.Length
    modifies buf
    ensures buf[..at] == old(buf[..at])
    ensures buf[at..at + |text|] == text && buf[at + |text|] == 0
    ensures buf[at + |text| + 1..] == old(buf[at + |text| + 1..])
  {
    for i := 0 to |text|
      invariant forall j :: 0 <= j < at ==> buf[j] == old(buf[j])
      invariant forall j :: 0 <= j < i ==> buf[at + j] == text[j]
      invariant forall j :: at + i <= j < buf.Length ==> buf[j] == old(buf[j])
    {
      buf[at + i] := text[i];
    }
    buf[at + |text|] := 0;
  }

  /** Type, length and text; the terminator lies behind the TLV. */
  method RawText(buf: array<Byte>, at: nat, kind: Byte, text: Text)
    requires at + 3 + |text| + 1 <= buf.Length
    modifies buf
    ensures buf[..at] == old(buf[..at])
    ensures buf[at..at + 3 + |text|] == Bytes(Tlv(kind, text))
  {
    buf[at], buf[at + 1], buf[at + 2] := kind, Low(|text|), High(|text|);
    ghost var front := buf[..at + 3];
    CopyText(buf, at + 3, text);
    assert buf[..at] == front[..at];
    assert buf[at..at + 3 + |text|] == front[at..] + buf[at + 3..at + 3 + |text|];
  }

  method PutText(buf: array<Byte>, n: nat, kind: Byte, text: Text, ghost tlvs: seq<Tlv>) returns (n': nat)
    requires Written(buf, n, tlvs) && BODY + n + 3 + |text| + 1 <= buf.Length
    modifies buf
    ensures n' == n + 3 + |text| && Written(buf, n', tlvs + [Tlv(kind, text)])
    ensures buf[..BODY] == old(buf[..BODY])
  {
    ghost var front := buf[..BODY + n];
    RawText(buf, BODY + n, kind, text);
    n' := n + 3 + |text|;
    assert buf[BODY..BODY + n] == front[BODY..];
    assert buf[..BODY] == front[..BODY];
    WrittenMore(buf, n, tlvs, Tlv(kind, text));
  }

  method PutMaybeText(buf: array<Byte>, n: nat, kind: Byte, text: Option<Text>, ghost tlvs: seq<Tlv>) returns (n': nat)
    requires Written(buf, n, tlvs) && BODY + n + MaybeSize(text) + 1 <= buf.Length
    modifies buf
    ensures n' == n + MaybeSize(text) && Written(buf, n', tlvs + Maybe(kind, text))
    ensures buf[..BODY] == old(buf[..BODY])
  {
    n' := n;
    if text.Some? {
      n' := PutText(buf, n, kind, text.value, tlvs);
    } else {
      assert tlvs + Maybe(kind, text) == tlvs;
    }
  }

  method PutMaybeByte(buf: array<Byte>, n: nat, there: bool, kind: Byte, b: Byte, ghost tlvs: seq<Tlv>) returns (n': nat)
    requires Written(buf, n, tlvs) && (there ==> BODY + n + 4 <= buf.Length)
    modifies buf
    ensures n' == n + (if there then 4 else 0) && Written(buf, n', tlvs + MaybeByte(there, kind, b))
    ensures buf[..BODY] == old(buf[..BODY])
  {
    n' := n;
    if there {
      n' := PutByte(buf, n, kind, b, tlvs);
    } else {
      assert tlvs + MaybeByte(there, kind, b) == tlvs;
    }
  }

  // ----- start network -------------------------------------------------------

  /** ASCII "ctnet@mycdma.cn" and "vnet.mobi". */
  const CDMA_USER: Text := [99, 116, 110, 101, 116, 64, 109, 121, 99, 100, 109, 97, 46, 99, 110]
  const CDMA_PASSWORD: Text := [118, 110, 101, 116, 46, 109, 111, 98, 105]

  predicate Blank(t: Option<Text>)
  {
    t.None? || t.value == []
  }

  /** On CDMA without credentials the carrier's defaults are used. */
  function Effective(p: Profile, cdma: bool): Profile
  {
    if cdma && Blank(p.user) && Blank(p.password)
    then p.(user := Some(CDMA_USER), password := Some(CDMA_PASSWORD), auth := 2)
    else p
  }

  function SentApn(p: Profile, cdma: bool): Option<Text>
  {
    if cdma then None else p.apn
  }

  predicate HasLogin(p: Profile)
  {
    p.user.Some? && p.password.Some?
  }

  /** What the start-network request says, in order. */
  function StartTlvs(p: Profile, cdma: bool): seq<Tlv>
  {
    var q := Effective(p, cdma);
    [Tlv(0x30, [if cdma then 2 else 1])]
    + Maybe(0x14, SentApn(p, cdma))
    + Maybe(0x17, q.user)
    + Maybe(0x18, q.password)
    + MaybeByte(HasLogin(q), 0x16, q.auth)
    + [Tlv(0x19, [p.family])]
    + MaybeByte(p.index != 0 && !cdma, 0x31, p.index)
  }

  function StartSize(p: Profile, cdma: bool): nat
  {
    var q := Effective(p, cdma);
    8 + MaybeSize(SentApn(p, cdma)) + MaybeSize(q.user) + MaybeSize(q.password)
    + (if HasLogin(q) then 4 else 0) + (if p.index != 0 && !cdma then 4 else 0)
  }

  /** WdsStartNwInterfaceReq. */
  method FillStart(buf: array<Byte>, p: Profile, cdma: bool) returns (n: nat)
    requires buf.Length == BUFSIZE && BODY + StartSize(p, cdma) <= BUFSIZE
    modifies buf
    ensures n == StartSize(p, cdma) && Written(buf, n, StartTlvs(p, cdma))
    ensures buf[..BODY] == old(buf[..BODY])
  {
    var user, password, auth := p.user, p.password, p.auth;
    if cdma && (user.None? || user.value == []) && (password.None? || password.value == []) {
      user, password, auth := Some(CDMA_USER), Some(CDMA_PASSWORD), 2;
    }
    assert buf[BODY..BODY] == [];
    ghost var t1 := [Tlv(0x30, [if cdma then 2 else 1])];
    ghost var t2 := t1 + Maybe(0x14, SentApn(p, cdma));
    ghost var t3 := t2 + Maybe(0x17, user);
    ghost var t4 := t3 + Maybe(0x18, password);
    ghost var t5 := t4 + MaybeByte(user.Some? && password.Some?, 0x16, auth);
    ghost var t6 := t5 + [Tlv(0x19, [p.family])];
    assert [] + t1 == t1;
    n := PutByte(buf, 0, 0x30, if cdma then 2 else 1, []);
    n := PutMaybeText(buf, n, 0x14, if cdma then None else p.apn, t1);
    n := PutMaybeText(buf, n, 0x17, user, t2);
    n := PutMaybeText(buf, n, 0x18, password, t3);
    n := PutMaybeByte(buf, n, user.Some? && password.Some?, 0x16, auth, t4);
    n := PutByte(buf, n, 0x19, p.family, t5);
    n := PutMaybeByte(buf, n, p.index != 0 && !cdma, 0x31, p.index, t6);
  }

  // ----- modify profile ------------------------------------------------------

  function ModifyTlvs(p: Profile): seq<Tlv>
  {
    [Tlv(0x01, [0, p.index])]
    + [Tlv(0x11, [p.iptype])]
    + Maybe(0x14, p.apn)
    + Maybe(0x1B, p.user)
    + Maybe(0x1C, p.password)
    + MaybeByte(HasLogin(p), 0x1D, p.auth)
  }

  function ModifySize(p: Profile): nat
  {
    9 + MaybeSize(p.apn) + MaybeSize(p.user) + MaybeSize(p.password) + (if HasLogin(p) then 4 else 0)
  }

  /** Room for the modify request: without an auth TLV the last terminator stays
      behind the message, so one byte more is needed. */
  predicate ModifyFits(p: Profile)
  {
    BODY + ModifySize(p) + (if HasLogin(p) then 0 else 1) <= BUFSIZE
  }

  /** WdsModifyProfileSettingsReq. */
  method FillModify(buf: array<Byte>, p: Profile) returns (n: nat)
    requires buf.Length == BUFSIZE && ModifyFits(p)
    modifies buf
    ensures n == ModifySize(p) && Written(buf, n, ModifyTlvs(p))
    ensures buf[..BODY] == old(buf[..BODY])
  {
    ghost var t1 := [Tlv(0x01, [0, p.index])];
    ghost var t2 := t1 + [Tlv(0x11, [p.iptype])];
    ghost var t3 := t2 + Maybe(0x14, p.apn);
    ghost var t4 := t3 + Maybe(0x1B, p.user);
    ghost var t5 := t4 + Maybe(0x1C, p.password);
    buf[BODY], buf[BODY + 1], buf[BODY + 2], buf[BODY + 3], buf[BODY + 4] := 0x01, 2, 0, 0, p.index;
    EncodeOne(t1[0]);
    assert buf[BODY..BODY + 5] == Bytes(t1[0]);
    assert buf[..BODY] == old(buf[..BODY]);
    n := PutByte(buf, 5, 0x11, p.iptype, t1);
    n := PutMaybeText(buf, n, 0x14, p.apn, t2);
    n := PutMaybeText(buf, n, 0x1B, p.user, t3);
    n := PutMaybeText(buf, n, 0x1C, p.password, t4);
    n := PutMaybeByte(buf, n, HasLogin(p), 0x1D, p.auth, t5);
  }

  // ----- the frame -----------------------------------------------------------

  /** Header fields of a composed request, with both length fields consistent. */
  predicate Framed(msg: seq<Byte>, qmiType: Byte, tid: nat, msgType: nat)
  {
    && BODY <= |msg|
    && msg[0] == 1 && Le16(msg[1], msg[2]) + 1 == |msg|
    && msg[3] == 0 && msg[4] == qmiType && msg[5] == 0 && msg[6] == 0
    && Le16(msg[7], msg[8]) == tid
    && Le16(msg[9], msg[10]) == msgType
    && Le16(msg[11], msg[12]) == |msg| - BODY
  }

  /** The header bytes that do not depend on the body. */
  predicate Headed(h: seq<Byte>, qmiType: Byte, tid: nat, msgType: nat)
  {
    && BODY <= |h|
    && h[0] == 1 && h[3] == 0 && h[4] == qmiType && h[5] == 0 && h[6] == 0
    && h[7] == Low(tid) && h[8] == High(tid) && h[9] == Low(msgType) && h[10] == High(msgType)
  }

  /** ComposeQMUXMsg before the body: a zeroed buffer with type and transaction id. */
  method BeginMessage(qmiType: Byte, tid: nat, msgType: nat) returns (buf: array<Byte>)
    ensures fresh(buf) && buf.Length == BUFSIZE
    ensures Headed(buf[..BODY], qmiType, tid, msgType)
  {
    buf := new Byte[BUFSIZE](_ => 0);
    buf[0], buf[4] := 1, qmiType;
    buf[7], buf[8] := Low(tid), High(tid);
    buf[9], buf[10] := Low(msgType), High(msgType);
  }

  /** ComposeQMUXMsg after the body: both lengths, then the copy of that many bytes. */
  method EndMessage(buf: array<Byte>, n: nat, ghost qmiType: Byte, ghost tid: nat, ghost msgType: nat, ghost tlvs: seq<Tlv>)
    returns (msg: seq<Byte>)
    requires buf.Length == BUFSIZE && BODY + n <= BUFSIZE && tid < 65536 && msgType < 65536
    requires Written(buf, n, tlvs) && Sized(tlvs)
    requires Headed(buf[..BODY], qmiType, tid, msgType)
    modifies buf
    ensures |msg| == BODY + n && Framed(msg, qmiType, tid, msgType)
    ensures Tiles(msg, BODY, n, tlvs)
  {
    ghost var before := buf[..];
    var inner, outer := n, n + BODY - 1;
    buf[11], buf[12] := Low(inner), High(inner);
    buf[1], buf[2] := Low(outer), High(outer);
    msg := buf[..BODY + n];
    assert msg[BODY..BODY + n] == before[BODY..BODY + n];
    Unframe(before, msg, n, qmiType, tid, msgType);
  }

  lemma Unframe(before: seq<Byte>, msg: seq<Byte>, n: nat, qmiType: Byte, tid: nat, msgType: nat)
    requires |before| == BUFSIZE && BODY + n == |msg| <= BUFSIZE && tid < 65536 && msgType < 65536
    requires Headed(before[..BODY], qmiType, tid, msgType)
    requires msg[11] == Low(n) && msg[12] == High(n) && msg[1] == Low(n + 12) && msg[2] == High(n + 12)
    requires msg[0] == before[0] && forall i :: 3 <= i < 11 ==> msg[i] == before[i]
    ensures Framed(msg, qmiType, tid, msgType)
  {
    Le16RoundTrip(n);
    Le16RoundTrip(n + 12);
    Le16RoundTrip(tid);
    Le16RoundTrip(msgType);
  }

  lemma {:induction false} MaybeSized(p: Profile, cdma: bool)
    requires BODY + StartSize(p, cdma) <= BUFSIZE
    ensures Sized(StartTlvs(p, cdma))
  {
  }

  lemma {:induction false} ModifySized(p: Profile)
    requires BODY + ModifySize(p) <= BUFSIZE
    ensures Sized(ModifyTlvs(p))
  {
  }

  /** The start-network request for a profile that fits the buffer. */
  method ComposeStart(p: Profile, cdma: bool, qmiType: Byte, tid: nat) returns (msg: seq<Byte>)
    requires BODY + StartSize(p, cdma) <= BUFSIZE && tid < 65536
    ensures Framed(msg, qmiType, tid, 0x20)
    ensures Tiles(msg, BODY, Le16(msg[11], msg[12]), StartTlvs(p, cdma))
  {
    var buf := BeginMessage(qmiType, tid, 0x20);
    var n := FillStart(buf, p, cdma);
    MaybeSized(p, cdma);
    msg := EndMessage(buf, n, qmiType, tid, 0x20, StartTlvs(p, cdma));
  }

  method ComposeModify(p: Profile, tid: nat) returns (msg: seq<Byte>)
    requires ModifyFits(p) && tid < 65536
    ensures Framed(msg, 1, tid, 0x28)
    ensures Tiles(msg, BODY, Le16(msg[11], msg[12]), ModifyTlvs(p))
  {
    var buf := BeginMessage(1, tid, 0x28);
    var n := FillModify(buf, p);
    ModifySized(p);
    msg := EndMessage(buf, n, 1, tid, 0x28, ModifyTlvs(p));
  }
}
