/** The fold over system-information TLVs that decides whether the modem is
    packet-attached and whether it is on CDMA. */
module Registration {
  import opened Common
  import opened QmiTlv

  /** Service status TLVs carry the status first; system info TLVs carry a valid
      flag and the service domain. */
  predicate IsStatus(kind: Byte)
  {
    kind in {0x10, 0x11, 0x14, 0x4A}
  }

  predicate IsSystemInfo(kind: Byte)
  {
    kind in {0x15, 0x16, 0x17, 0x18, 0x19, 0x25, 0x4B}
  }

  predicate WellFormed(t: Tlv)
  {
    && |t.value| < 65536
    && (IsStatus(t.kind) ==> 1 <= |t.value|)
    && (IsSystemInfo(t.kind) ==> 2 <= |t.value|)
  }

  predicate InService(t: Tlv)
    requires WellFormed(t)
  {
    IsStatus(t.kind) && t.value[0] == 2
  }

  /** The entry reports the packet domain. */
  predicate PacketDomain(t: Tlv)
    requires WellFormed(t)
  {
    IsSystemInfo(t.kind) && t.value[0] == 1 && t.value[1] / 2 % 2 == 1
  }

  /** A CDMA or HDR system in service. */
  predicate MarksCdma(t: Tlv)
    requires WellFormed(t)
  {
    (t.kind in {0x10, 0x11} && InService(t)) || (t.kind in {0x15, 0x16} && PacketDomain(t))
  }

  /** An LTE or 5G system in service; the 5G system info does not count. */
  predicate MarksLte(t: Tlv)
    requires WellFormed(t)
  {
    (t.kind in {0x14, 0x4A} && InService(t)) || (t.kind == 0x19 && PacketDomain(t))
  }

  datatype Result = Result(attached: bool, cdma: bool)

  ghost predicate AllWellFormed(tlvs: seq<Tlv>)
  {
    forall i :: 0 <= i < |tlvs| ==> WellFormed(tlvs[i])
  }

  /** The meaning, independent of order. */
  ghost function Meaning(tlvs: seq<Tlv>): Result
    requires AllWellFormed(tlvs)
  {
    Result(exists i :: 0 <= i < |tlvs| && PacketDomain(tlvs[i]),
           (exists i :: 0 <= i < |tlvs| && MarksCdma(tlvs[i])) && !exists i :: 0 <= i < |tlvs| && MarksLte(tlvs[i]))
  }

  // ----- the fold ------------------------------------------------------------

  datatype Acc = Acc(attached: bool, cdma: bool, lte: bool)

  /** One turn of the switch. */
  function Visit(acc: Acc, t: Tlv): Acc
    requires WellFormed(t)
  {
    if t.kind == 0x10 || t.kind == 0x11 then
      if t.value[0] == 2 then acc.(cdma := !acc.lte) else acc
    else if t.kind == 0x14 || t.kind == 0x4A then
      if t.value[0] == 2 then acc.(lte := true, cdma := false) else acc
    else if t.kind == 0x15 || t.kind == 0x16 then
      if t.value[0] == 1 && t.value[1] / 2 % 2 == 1 then acc.(attached := true, cdma := !acc.lte) else acc
    else if t.kind == 0x19 then
      if t.value[0] == 1 && t.value[1] / 2 % 2 == 1 then Acc(true, false, true) else acc
    else if t.kind == 0x17 || t.kind == 0x18 || t.kind == 0x25 || t.kind == 0x4B then
      if t.value[0] == 1 && t.value[1] / 2 % 2 == 1 then acc.(attached := true) else acc
    else acc
  }

  /** What has been seen among the first k entries. */
  ghost predicate Seen(acc: Acc, tlvs: seq<Tlv>, k: nat)
    requires k <= |tlvs| && AllWellFormed(tlvs)
  {
    && (acc.attached <==> exists i :: 0 <= i < k && PacketDomain(tlvs[i]))
    && (acc.lte <==> exists i :: 0 <= i < k && MarksLte(tlvs[i]))
    && (acc.cdma <==> !acc.lte && exists i :: 0 <= i < k && MarksCdma(tlvs[i]))
  }

  /** A CDMA entry counts unless an LTE one was or will be seen, whatever the order. */
  lemma VisitMarks(acc: Acc, t: Tlv)
    requires WellFormed(t) && !(acc.cdma && acc.lte)
    ensures Visit(acc, t).attached == (acc.attached || PacketDomain(t))
    ensures Visit(acc, t).lte == (acc.lte || MarksLte(t))
    ensures Visit(acc, t).cdma == (!Visit(acc, t).lte && (acc.cdma || MarksCdma(t)))
  {
  }

  lemma VisitSees(acc: Acc, tlvs: seq<Tlv>, k: nat)
    requires k < |tlvs| && AllWellFormed(tlvs) && Seen(acc, tlvs, k)
    ensures Seen(Visit(acc, tlvs[k]), tlvs, k + 1)
  {
    VisitMarks(acc, tlvs[k]);
  }

  /** The first k entries visited. */
  ghost function Visited(tlvs: seq<Tlv>, k: nat): Acc
    requires k <= |tlvs| && AllWellFormed(tlvs)
  {
    if k == 0 then Acc(false, false, false) else Visit(Visited(tlvs, k - 1), tlvs[k - 1])
  }

  lemma {:induction false} VisitedSees(tlvs: seq<Tlv>, k: nat)
    requires k <= |tlvs| && AllWellFormed(tlvs)
    ensures Seen(Visited(tlvs, k), tlvs, k)
  {
    if k > 0 {
      VisitedSees(tlvs, k - 1);
      VisitSees(Visited(tlvs, k - 1), tlvs, k - 1);
    }
  }

  lemma {:induction false} VisitedMeans(tlvs: seq<Tlv>)
    requires AllWellFormed(tlvs)
    ensures var acc := Visited(tlvs, |tlvs|); Meaning(tlvs) == Result(acc.attached, acc.cdma)
  {
    VisitedSees(tlvs, |tlvs|);
  }

  /** The loop of requestRegistrationState2 over the message body. */
  method Fold(buf: seq<Byte>, at: nat, length: nat, ghost tlvs: seq<Tlv>) returns (r: Result)
    requires Tiles(buf, at, length, tlvs) && AllWellFormed(tlvs)
    ensures r == Meaning(tlvs)
  {
    var acc := VisitAll(buf, at, length, tlvs);
    VisitedMeans(tlvs);
    r := Result(acc.attached, acc.cdma);
  }

  method VisitAll(buf: seq<Byte>, at: nat, length: nat, ghost tlvs: seq<Tlv>) returns (acc: Acc)
    requires Tiles(buf, at, length, tlvs) && AllWellFormed(tlvs)
    ensures acc == Visited(tlvs, |tlvs|)
  {
    acc := Acc(false, false, false);
    var p: nat, remaining: nat := at, length;
    ghost var k := 0;
    assert tlvs[0..] == tlvs;
    while remaining > 0
      invariant 0 <= k <= |tlvs| && Tiles(buf, p, remaining, tlvs[k..]) && acc == Visited(tlvs, k)
      decreases remaining
    {
      NextTlv(buf, p, remaining, tlvs, k);
      var t := ReadTlv(buf, p, tlvs[k]);
      acc := Visit(acc, t);
      p, remaining := p + 3 + |t.value|, remaining - 3 - |t.value|;
      k := k + 1;
    }
    NoTlvLeft(buf, p, remaining, tlvs[k..]);
  }

  /** Any order of the same entries means the same. */
  lemma OrderDoesNotMatter(a: seq<Tlv>, b: seq<Tlv>)
    requires AllWellFormed(a) && AllWellFormed(b) && multiset(a) == multiset(b)
    ensures Meaning(a) == Meaning(b)
  {
    assert forall t :: t in multiset(a) <==> t in a;
    assert forall t :: t in multiset(b) <==> t in b;
    assert forall i :: 0 <= i < |a| ==> a[i] in b;
    assert forall i :: 0 <= i < |b| ==> b[i] in a;
  }

  /** What a single entry makes of an empty list, by its type and bytes: statuses of
      CDMA 0x10 and HDR 0x11, LTE 0x14 and 5G 0x4A in service (2); system information
      of CDMA 0x15, HDR 0x16, GSM 0x17, WCDMA 0x18, LTE 0x19, TD-SCDMA 0x25 and 5G 0x4B
      that is valid (1) and has the packet bit (2, 3) in its service domain. */
  lemma {:induction false} EntryMeans(k: Byte, v: seq<Byte>)
    requires 2 <= |v| < 65536
    ensures var m := Meaning([Tlv(k, v)]);
            var packet := v[0] == 1 && v[1] % 4 >= 2;
            && (m.attached <==> packet && (0x15 <= k <= 0x19 || k == 0x25 || k == 0x4B))
            && (m.cdma <==> (v[0] == 2 && (k == 0x10 || k == 0x11)) || (packet && (k == 0x15 || k == 0x16)))
  {
    var one := [Tlv(k, v)];
    assert WellFormed(one[0]);
    assert v[1] / 2 % 2 == 1 <==> v[1] % 4 >= 2;
    assert PacketDomain(one[0]) <==> exists i :: 0 <= i < |one| && PacketDomain(one[i]);
    assert MarksCdma(one[0]) <==> exists i :: 0 <= i < |one| && MarksCdma(one[i]);
    assert MarksLte(one[0]) <==> exists i :: 0 <= i < |one| && MarksLte(one[i]);
  }

  /** Which entry overrules a CDMA one, in front of it or behind. */
  lemma {:induction false} OverrulesCdma(k: Byte, v: seq<Byte>, w: seq<Byte>)
    requires 2 <= |v| < 65536 && 2 <= |w| < 65536 && w[0] == 2
    ensures Meaning([Tlv(k, v), Tlv(0x10, w)]).cdma <==>
            !((v[0] == 2 && (k == 0x14 || k == 0x4A)) || (v[0] == 1 && v[1] % 4 >= 2 && k == 0x19))
  {
    var two := [Tlv(k, v), Tlv(0x10, w)];
    assert v[1] / 2 % 2 == 1 <==> v[1] % 4 >= 2;
    assert MarksCdma(two[1]) && !MarksLte(two[1]);
    assert MarksLte(two[0]) <==> exists i :: 0 <= i < |two| && MarksLte(two[i]);
  }
}
