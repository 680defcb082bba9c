/** Reading messages back: the start-network round trip, and the profile that
    converges once its settings are written to the modem. */
module QmiProfile {
  import opened Common
  import opened QmiTlv
  import opened QmiBuild

  /** The value of the first TLV of a type. */
  function Lookup(tlvs: seq<Tlv>, kind: Byte): Option<Text>
  {
    if tlvs == [] then None
    else if tlvs[0].kind == kind then Some(tlvs[0].value)
    else Lookup(tlvs[1..], kind)
  }

  lemma {:induction false} LookupFirst(tlvs: seq<Tlv>, kind: Byte, k: nat)
    requires k <= |tlvs| && forall i :: 0 <= i < k ==> tlvs[i].kind != kind
    ensures k == |tlvs| ==> Lookup(tlvs, kind) == None
    ensures k < |tlvs| && tlvs[k].kind == kind ==> Lookup(tlvs, kind) == Some(tlvs[k].value)
    decreases k
  {
    if k > 0 {
      assert forall i :: 0 <= i < k - 1 ==> tlvs[1..][i] == tlvs[i + 1];
      LookupFirst(tlvs[1..], kind, k - 1);
    }
  }

  lemma {:induction false} LookupAppend(a: seq<Tlv>, b: seq<Tlv>, kind: Byte)
    ensures Lookup(a + b, kind) == if Lookup(a, kind).Some? then Lookup(a, kind) else Lookup(b, kind)
  {
    if a == [] {
      assert a + b == b;
    } else {
      assert (a + b)[1..] == a[1..] + b;
      LookupAppend(a[1..], b, kind);
    }
  }

  lemma LookupOne(t: Tlv, kind: Byte)
    ensures Lookup([t], kind) == if t.kind == kind then Some(t.value) else None
  {
    assert [t][1..] == [];
  }

  /** GetTLV followed by a read of the value. */
  method GetValue(msg: seq<Byte>, kind: Byte, ghost tlvs: seq<Tlv>) returns (v: Option<Text>)
    requires BODY <= |msg| && Tiles(msg, BODY, Le16(msg[11], msg[12]), tlvs)
    ensures v == Lookup(tlvs, kind)
  {
    var found := GetTlv(msg, 9, kind, tlvs);
    ghost var k := FirstWanted(tlvs, 0, kind);
    forall i | 0 <= i < k
      ensures tlvs[i].kind != kind
    {
      assert !Wanted(tlvs, i, kind);
    }
    LookupFirst(tlvs, kind, k);
    if found.None? {
      return None;
    }
    var t := ReadTlv(msg, found.value, tlvs[k]);
    v := Some(t.value);
  }

  // ----- start network round trip --------------------------------------------

  datatype StartFields = StartFields(
    technology: Option<Text>, apn: Option<Text>, user: Option<Text>, password: Option<Text>,
    auth: Option<Text>, family: Option<Text>, index: Option<Text>)

  /** What the modem must understand of a start-network request. */
  function Meant(p: Profile, cdma: bool): StartFields
  {
    var q := Effective(p, cdma);
    StartFields(
      Some([if cdma then 2 else 1]),
      if cdma then None else p.apn,
      q.user,
      q.password,
      if q.user.Some? && q.password.Some? then Some([q.auth]) else None,
      Some([p.family]),
      if p.index != 0 && !cdma then Some([p.index]) else None)
  }

  /** The TLVs in front of a field's own TLV are of other types. */
  lemma StartLookup(p: Profile, cdma: bool, kind: Byte)
    ensures Lookup(StartTlvs(p, cdma), kind) ==
            var m := Meant(p, cdma);
            if kind == 0x30 then m.technology
            else if kind == 0x14 then m.apn
            else if kind == 0x17 then m.user
            else if kind == 0x18 then m.password
            else if kind == 0x16 then m.auth
            else if kind == 0x19 then m.family
            else if kind == 0x31 then m.index
            else None
  {
    var q := Effective(p, cdma);
    var a := [Tlv(0x30, [if cdma then 2 else 1])];
    var b := a + Maybe(0x14, SentApn(p, cdma));
    var c := b + Maybe(0x17, q.user);
    var d := c + Maybe(0x18, q.password);
    var e := d + MaybeByte(HasLogin(q), 0x16, q.auth);
    var f := e + [Tlv(0x19, [p.family])];
    LookupOne(a[0], kind);
    LookupMaybe(a, 0x14, SentApn(p, cdma), kind);
    LookupMaybe(b, 0x17, q.user, kind);
    LookupMaybe(c, 0x18, q.password, kind);
    LookupMaybeByte(d, HasLogin(q), 0x16, q.auth, kind);
    LookupMaybeByte(e, true, 0x19, p.family, kind);
    LookupMaybeByte(f, p.index != 0 && !cdma, 0x31, p.index, kind);
    assert StartTlvs(p, cdma) == f + MaybeByte(p.index != 0 && !cdma, 0x31, p.index);
  }

  lemma LookupMaybe(a: seq<Tlv>, own: Byte, t: Option<Text>, kind: Byte)
    ensures Lookup(a + Maybe(own, t), kind) ==
            if Lookup(a, kind).Some? then Lookup(a, kind) else if kind == own then t else None
  {
    LookupAppend(a, Maybe(own, t), kind);
    if t.Some? {
      LookupOne(Tlv(own, t.value), kind);
    }
  }

  lemma LookupMaybeByte(a: seq<Tlv>, there: bool, own: Byte, b: Byte, kind: Byte)
    ensures Lookup(a + MaybeByte(there, own, b), kind) ==
            if Lookup(a, kind).Some? then Lookup(a, kind) else if there && kind == own then Some([b]) else None
  {
    LookupMaybe(a, own, if there then Some([b]) else None, kind);
  }

  /** The bytes of an ASCII text. */
  function Ascii(s: string): (b: Text)
    requires forall i :: 0 <= i < |s| ==> s[i] as int < 256
  {
    seq(|s|, i requires 0 <= i < |s| => s[i] as int)
  }

  /** What is sent on CDMA: no APN, no index, technology 2; and if neither user nor
      password is configured, the carrier's login under auth mode 2. */
  lemma {:induction false} CdmaFields(p: Profile)
    ensures var m := Meant(p, true);
            && m.technology == Some([2]) && m.apn == None && m.index == None && m.family == Some([p.family])
            && ((p.user.None? || p.user.value == []) && (p.password.None? || p.password.value == []) ==>
                  && m.user == Some(Ascii("ctnet@mycdma.cn")) && m.password == Some(Ascii("vnet.mobi"))
                  && m.auth == Some([2]))
            && ((p.user.Some? && p.user.value != []) || (p.password.Some? && p.password.value != []) ==>
                  m.user == p.user && m.password == p.password
                  && m.auth == if p.user.Some? && p.password.Some? then Some([p.auth]) else None)
  {
    assert Ascii("ctnet@mycdma.cn") == CDMA_USER;
    assert Ascii("vnet.mobi") == CDMA_PASSWORD;
  }

  /** And on any other network: the profile as it is. */
  lemma {:induction false} PlainFields(p: Profile)
    ensures Meant(p, false) ==
            StartFields(Some([1]), p.apn, p.user, p.password,
                        if p.user.Some? && p.password.Some? then Some([p.auth]) else None,
                        Some([p.family]), if p.index != 0 then Some([p.index]) else None)
  {
  }

  function Kinds(tlvs: seq<Tlv>): (k: seq<Byte>)
    ensures |k| == |tlvs| && forall i :: 0 <= i < |tlvs| ==> k[i] == tlvs[i].kind
  {
    seq(|tlvs|, i requires 0 <= i < |tlvs| => tlvs[i].kind)
  }

  /** The order of the request: technology, APN, user, password, auth, family, index. */
  lemma {:induction false} StartOrder(p: Profile)
    requires p.apn.Some? && p.user.Some? && p.password.Some? && p.index != 0
    ensures Kinds(StartTlvs(p, false)) == [0x30, 0x14, 0x17, 0x18, 0x16, 0x19, 0x31]
  {
  }

  /** And of the modify request: profile, IP type, APN, user, password, auth. */
  lemma {:induction false} ModifyOrder(p: Profile)
    requires p.apn.Some? && p.user.Some? && p.password.Some?
    ensures Kinds(ModifyTlvs(p)) == [0x01, 0x11, 0x14, 0x1B, 0x1C, 0x1D]
  {
  }

  /** TLV build/parse round trip: the composed bytes, read through GetTLV, give
      exactly the effective profile, absent fields included, and the indexed walk
      visits the TLVs once, in order. */
  method StartRoundTrip(p: Profile, cdma: bool, qmiType: Byte, tid: nat) returns (fields: StartFields, walk: seq<Tlv>)
    requires BODY + StartSize(p, cdma) <= BUFSIZE && tid < 65536
    ensures fields == Meant(p, cdma)
    ensures walk == StartTlvs(p, cdma)
  {
    var msg := ComposeStart(p, cdma, qmiType, tid);
    ghost var tlvs := StartTlvs(p, cdma);
    var technology := GetValue(msg, 0x30, tlvs);
    var apn := GetValue(msg, 0x14, tlvs);
    var user := GetValue(msg, 0x17, tlvs);
    var password := GetValue(msg, 0x18, tlvs);
    var auth := GetValue(msg, 0x16, tlvs);
    var family := GetValue(msg, 0x19, tlvs);
    var index := GetValue(msg, 0x31, tlvs);
    fields := StartFields(technology, apn, user, password, auth, family, index);
    StartLookup(p, cdma, 0x30);
    StartLookup(p, cdma, 0x14);
    StartLookup(p, cdma, 0x17);
    StartLookup(p, cdma, 0x18);
    StartLookup(p, cdma, 0x16);
    StartLookup(p, cdma, 0x19);
    StartLookup(p, cdma, 0x31);
    walk := DumpTlv(msg, 9, tlvs);
  }

  // ----- profile convergence -------------------------------------------------

  /** A modem that stores the value of every TLV it is sent, by type. */
  type Store = map<Byte, Text>

  function Stored(store: Store, kind: Byte): Option<Text>
  {
    if kind in store then Some(store[kind]) else None
  }

  function Overlay(store: Store, tlvs: seq<Tlv>): Store
    decreases |tlvs|
  {
    if tlvs == [] then store
    else
      var n := |tlvs| - 1;
      Overlay(store, tlvs[..n])[tlvs[n].kind := tlvs[n].value]
  }

  /** The settings read from the modem, as the profile keeps them. */
  datatype Old = Old(apn: Text, user: Text, password: Text, auth: Byte, iptype: Byte)

  const TEXT_LIMIT: nat := 63     // the profile's 64-byte fields less the terminator

  /** A byte array as a C string: what is in front of the first NUL. */
  function CString(b: Text): Text
  {
    if b == [] || b[0] == 0 then [] else [b[0]] + CString(b[1..])
  }

  /** uchar2char into an emptied 64-byte field. */
  function Kept(v: Option<Text>): Text
  {
    if v.None? then []
    else CString(if |v.value| <= TEXT_LIMIT then v.value else v.value[..TEXT_LIMIT])
  }

  function KeptByte(v: Option<Text>): Byte
  {
    if v.Some? && v.value != [] then v.value[0] else 0
  }

  function OldFrom(tlvs: seq<Tlv>): Old
  {
    Old(Kept(Lookup(tlvs, 0x14)), Kept(Lookup(tlvs, 0x1B)), Kept(Lookup(tlvs, 0x1C)),
        KeptByte(Lookup(tlvs, 0x1D)), KeptByte(Lookup(tlvs, 0x11)))
  }

  /** The one-byte settings of a report have their byte. */
  predicate WellFormed(tlvs: seq<Tlv>)
  {
    Lookup(tlvs, 0x1D) != Some([]) && Lookup(tlvs, 0x11) != Some([])
  }

  /** The TLV reads of requestGetProfile. */
  method GetProfile(msg: seq<Byte>, ghost tlvs: seq<Tlv>) returns (found: Old)
    requires BODY <= |msg| && Tiles(msg, BODY, Le16(msg[11], msg[12]), tlvs) && WellFormed(tlvs)
    ensures found == OldFrom(tlvs)
  {
    var apn := GetValue(msg, 0x14, tlvs);
    var user := GetValue(msg, 0x1B, tlvs);
    var password := GetValue(msg, 0x1C, tlvs);
    var auth := GetValue(msg, 0x1D, tlvs);
    var iptype := GetValue(msg, 0x11, tlvs);
    found := Old(Kept(apn), Kept(user), Kept(password),
                if auth.Some? then auth.value[0] else 0,
                if iptype.Some? then iptype.value[0] else 0);
  }

  function OrEmpty(t: Option<Text>): Text
  {
    if t.Some? then t.value else []
  }

  /** requestSetProfile: -1 without an index, 0 when nothing differs, 1 after a
      successful modify request. */
  function SetProfile(p: Profile, found: Old): int
  {
    if p.index == 0 then -1
    else if found == Old(OrEmpty(p.apn), OrEmpty(p.user), OrEmpty(p.password), p.auth, p.iptype) then 0
    else 1
  }

  /** An empty report reads as empty texts and zeros; requestSetProfile then sends
      anything else, does nothing without an index, and says so by its result. */
  lemma {:induction false} SetProfileResults(p: Profile, found: Old)
    ensures OldFrom([]) == Old([], [], [], 0, 0)
    ensures p.index == 0 <==> SetProfile(p, found) == -1
    ensures p.index != 0 ==>
              (SetProfile(p, found) == 1 <==>
               || found.apn != OrEmpty(p.apn) || found.user != OrEmpty(p.user) || found.password != OrEmpty(p.password)
               || found.auth != p.auth || found.iptype != p.iptype)
    ensures SetProfile(p, found) in {-1, 0, 1}
  {
  }

  /** The modem's report agrees with its store on the settings that are read. */
  predicate Reports(report: seq<Tlv>, store: Store)
  {
    && Lookup(report, 0x11) == Stored(store, 0x11)
    && Lookup(report, 0x14) == Stored(store, 0x14)
    && Lookup(report, 0x1B) == Stored(store, 0x1B)
    && Lookup(report, 0x1C) == Stored(store, 0x1C)
    && Lookup(report, 0x1D) == Stored(store, 0x1D)
  }

  /** A text setting converges: it is sent and not longer than the field it is
      read back into, or it is not sent and the modem holds none. */
  predicate TextSettles(t: Option<Text>, held: Option<Text>)
  {
    if t.Some? then |t.value| <= TEXT_LIMIT else Kept(held) == []
  }

  /** When a profile converges, in terms of the profile and the store before. */
  predicate Settles(p: Profile, store: Store)
  {
    && TextSettles(p.apn, Stored(store, 0x14))
    && TextSettles(p.user, Stored(store, 0x1B))
    && TextSettles(p.password, Stored(store, 0x1C))
    && (HasLogin(p) || KeptByte(Stored(store, 0x1D)) == p.auth)
  }

  lemma {:induction false} CStringOfText(b: Text)
    ensures 0 !in b ==> CString(b) == b
    ensures |CString(b)| <= |b|
  {
    if b != [] {
      CStringOfText(b[1..]);
    }
  }

  /** A text comes back unchanged exactly when it is short enough. */
  lemma KeptText(t: Text)
    requires 0 !in t
    ensures Kept(Some(t)) == t <==> |t| <= 63
  {
    if |t| <= TEXT_LIMIT {
      CStringOfText(t);
    } else {
      CStringOfText(t[..TEXT_LIMIT]);
    }
  }

  lemma OverlayNext(store: Store, tlvs: seq<Tlv>, t: Tlv)
    ensures Overlay(store, tlvs + [t]) == Overlay(store, tlvs)[t.kind := t.value]
  {
    assert (tlvs + [t])[..|tlvs|] == tlvs;
  }

  lemma OverlayMaybe(store: Store, tlvs: seq<Tlv>, own: Byte, t: Option<Text>, kind: Byte)
    ensures Stored(Overlay(store, tlvs + Maybe(own, t)), kind) ==
            if kind == own && t.Some? then t else Stored(Overlay(store, tlvs), kind)
  {
    if t.Some? {
      OverlayNext(store, tlvs, Tlv(own, t.value));
    } else {
      assert tlvs + Maybe(own, t) == tlvs;
    }
  }

  function Sent(p: Profile, kind: Byte): Option<Text>
  {
    if kind == 0x01 then Some([0, p.index])
    else if kind == 0x11 then Some([p.iptype])
    else if kind == 0x14 then p.apn
    else if kind == 0x1B then p.user
    else if kind == 0x1C then p.password
    else if kind == 0x1D && HasLogin(p) then Some([p.auth])
    else None
  }

  /** What the store holds after the request: what was sent, else what it held. */
  lemma StoredAfterModify(p: Profile, store: Store, kind: Byte)
    ensures Stored(Overlay(store, ModifyTlvs(p)), kind) ==
            if Sent(p, kind).Some? then Sent(p, kind) else Stored(store, kind)
  {
    StoredAfterHead(p, store, kind);
    StoredAfterTexts(p, store, Head(p), kind);
  }

  function Head(p: Profile): seq<Tlv>
  {
    [Tlv(0x01, [0, p.index])] + [Tlv(0x11, [p.iptype])]
  }

  lemma StoredAfterHead(p: Profile, store: Store, kind: Byte)
    ensures Stored(Overlay(store, Head(p)), kind) ==
            if kind == 0x01 then Some([0, p.index]) else if kind == 0x11 then Some([p.iptype]) else Stored(store, kind)
  {
    var a := [Tlv(0x01, [0, p.index])];
    OverlayNext(store, a, Tlv(0x11, [p.iptype]));
    assert a[..0] == [];
  }

  lemma StoredAfterTexts(p: Profile, store: Store, b: seq<Tlv>, kind: Byte)
    ensures Stored(Overlay(store, b + Maybe(0x14, p.apn) + Maybe(0x1B, p.user) + Maybe(0x1C, p.password)
                                    + MaybeByte(HasLogin(p), 0x1D, p.auth)), kind) ==
            if kind == 0x14 && p.apn.Some? then p.apn
            else if kind == 0x1B && p.user.Some? then p.user
            else if kind == 0x1C && p.password.Some? then p.password
            else if kind == 0x1D && HasLogin(p) then Some([p.auth])
            else Stored(Overlay(store, b), kind)
  {
    var c := b + Maybe(0x14, p.apn);
    var d := c + Maybe(0x1B, p.user);
    var e := d + Maybe(0x1C, p.password);
    OverlayMaybe(store, b, 0x14, p.apn, kind);
    OverlayMaybe(store, c, 0x1B, p.user, kind);
    OverlayMaybe(store, d, 0x1C, p.password, kind);
    OverlayMaybe(store, e, 0x1D, if HasLogin(p) then Some([p.auth]) else None, kind);
  }

  lemma TextConverges(t: Option<Text>, held: Option<Text>)
    requires IsText(t)
    ensures Kept(if t.Some? then t else held) == OrEmpty(t) <==> TextSettles(t, held)
  {
    if t.Some? {
      KeptText(t.value);
    }
  }

  /** Profile convergence, exactly: after the modify request, whatever order the
      modem reports in, the next requestSetProfile finds nothing to change if and
      only if the profile settles. */
  lemma ProfileConverges(p: Profile, store: Store, report: seq<Tlv>)
    requires IsProfile(p) && p.index != 0
    requires Reports(report, Overlay(store, ModifyTlvs(p)))
    ensures SetProfile(p, OldFrom(report)) == 0 <==> Settles(p, store)
  {
    StoredAfterModify(p, store, 0x11);
    StoredAfterModify(p, store, 0x14);
    StoredAfterModify(p, store, 0x1B);
    StoredAfterModify(p, store, 0x1C);
    StoredAfterModify(p, store, 0x1D);
    TextConverges(p.apn, Stored(store, 0x14));
    TextConverges(p.user, Stored(store, 0x1B));
    TextConverges(p.password, Stored(store, 0x1C));
  }

  /** In particular: with APN, user and password all present and short enough the
      profile converges, whatever the modem held before. */
  lemma FullProfileConverges(p: Profile, store: Store, report: seq<Tlv>)
    requires IsProfile(p) && p.index != 0
    requires Reports(report, Overlay(store, ModifyTlvs(p)))
    requires p.apn.Some? && p.user.Some? && p.password.Some?
    requires |p.apn.value| <= 63 && |p.user.value| <= 63 && |p.password.value| <= 63
    ensures SetProfile(p, OldFrom(report)) == 0
    ensures ModifyFits(p)
  {
    ProfileConverges(p, store, report);
  }

  /** The same over the bytes of both messages. */
  method ModifyThenCheck(p: Profile, tid: nat, store: Store, answer: seq<Byte>, ghost report: seq<Tlv>)
    returns (kept: Store, result: int)
    requires IsProfile(p) && p.index != 0 && ModifyFits(p) && tid < 65536
    requires BODY <= |answer| && Tiles(answer, BODY, Le16(answer[11], answer[12]), report) && WellFormed(report)
    requires Reports(report, Overlay(store, ModifyTlvs(p)))
    ensures kept == Overlay(store, ModifyTlvs(p))
    ensures result == 0 <==> Settles(p, store)
  {
    var msg := ComposeModify(p, tid);
    var seen := DumpTlv(msg, 9, ModifyTlvs(p));
    kept := Overlay(store, seen);
    var found := GetProfile(answer, report);
    result := SetProfile(p, found);
    ProfileConverges(p, store, report);
  }
}
