/** Requests and replies over one shared slot: transaction ids with wrap-around,
    reply matching on message bytes, and the sending and receiving threads as
    atomic steps under the command mutex. */
module QmiTransport {
  import opened Common
  import opened QmiTlv

  const TYPE_CTL: Byte := 0x00
  const TYPE_WDS: Byte := 0x01
  const TYPE_WDS_IPV6: Byte := 0x11

  // ----- transaction ids -----------------------------------------------------

  /** How many ids a counter runs through. */
  function Ids(ctl: bool): nat
  {
    if ctl then 255 else 65535
  }

  /** The id of draw number k (from 1); before the first draw the counter is 0. */
  function Tid(k: nat, ctl: bool): nat
  {
    if k == 0 then 0 else if ctl then (k - 1) % 255 + 1 else (k - 1) % 65535 + 1
  }

  /** GetQMUXTransactionId and, for control messages, GetQCTLTransactionId. */
  class Counter {
    const ctl: bool
    var id: nat
    ghost var draws: nat

    ghost predicate Valid()
      reads this
    {
      id == Tid(draws, ctl)
    }

    constructor (control: bool)
      ensures Valid() && ctl == control && draws == 0
    {
      ctl := control;
      id, draws := 0, 0;
    }

    method Draw() returns (tid: nat)
      requires Valid()
      modifies this
      ensures Valid() && draws == old(draws) + 1
      ensures tid == Tid(draws, ctl) && 1 <= tid <= Ids(ctl)
    {
      TidNext(draws, ctl);
      id := id + 1;
      if id > (if ctl then 0xFF else 0xFFFF) {
        id := 1;
      }
      draws := draws + 1;
      tid := id;
    }
  }

  /** The counter's step in terms of draw numbers. */
  lemma TidNext(k: nat, ctl: bool)
    ensures Tid(k + 1, ctl) == if Tid(k, ctl) + 1 > Ids(ctl) then 1 else Tid(k, ctl) + 1
  {
    if k > 0 && ctl {
      Next255(k - 1);
    } else if k > 0 {
      Next65535(k - 1);
    }
  }

  lemma {:induction false} Next255(a: nat)
    ensures (a + 1) % 255 == if a % 255 == 254 then 0 else a % 255 + 1
  {
    var q, r := a / 255, a % 255;
    assert a + 1 == 255 * q + (r + 1);
    assert r == 254 ==> a + 1 == 255 * (q + 1);
  }

  lemma {:induction false} Next65535(a: nat)
    ensures (a + 1) % 65535 == if a % 65535 == 65534 then 0 else a % 65535 + 1
  {
    var q, r := a / 65535, a % 65535;
    assert a + 1 == 65535 * q + (r + 1);
    assert r == 65534 ==> a + 1 == 65535 * (q + 1);
  }

  lemma TidRange(k: nat, ctl: bool)
    requires 0 < k
    ensures 1 <= Tid(k, ctl) <= Ids(ctl)
  {
  }

  /** Two draws share an id exactly when they are a whole number of rounds apart. */
  lemma SameTidIff(i: nat, j: nat, ctl: bool)
    requires 0 < i <= j
    ensures Tid(i, ctl) == Tid(j, ctl) <==> (j - i) % (if ctl then 255 else 65535) == 0
  {
    if ctl {
      SameRemainder255(i - 1, j - 1);
    } else {
      SameRemainder65535(i - 1, j - 1);
    }
  }

  lemma SameRemainder255(a: nat, b: nat)
    requires a <= b
    ensures a % 255 == b % 255 <==> (b - a) % 255 == 0
  {
    var m, r := (b - a) % 255, b % 255 - a % 255;
    var z := (b - a) / 255 - (b / 255 - a / 255);
    assert 255 * z == r - m;
    assert m == 0 ==> z == 0;
    assert r == 0 ==> z == 0;
  }

  lemma SameRemainder65535(a: nat, b: nat)
    requires a <= b
    ensures a % 65535 == b % 65535 <==> (b - a) % 65535 == 0
  {
    var m, r := (b - a) % 65535, b % 65535 - a % 65535;
    var z := (b - a) / 65535 - (b / 65535 - a / 65535);
    assert 65535 * z == r - m;
    assert m == 0 ==> z == 0;
    assert r == 0 ==> z == 0;
  }

  // ----- messages ------------------------------------------------------------

  /** Header fields used for matching: service type, client and transaction id,
      which is one byte in control messages and two in all others. */
  predicate HasHeader(m: seq<Byte>)
  {
    9 <= |m|
  }

  function TransactionId(m: seq<Byte>, ctl: bool): nat
    requires HasHeader(m)
  {
    if ctl then m[7] else Le16(m[7], m[8])
  }

  /** is_response. */
  predicate IsResponse(request: seq<Byte>, response: seq<Byte>)
    requires HasHeader(request) && HasHeader(response)
  {
    && request[4] == response[4]
    && request[5] == response[5]
    && TransactionId(request, request[4] == TYPE_CTL) == TransactionId(response, request[4] == TYPE_CTL)
  }

  // ----- the protocol --------------------------------------------------------

  datatype Message = Reply(to: nat, bytes: seq<Byte>) | Other(bytes: seq<Byte>)

  /** The caller of request number `request` got `message`. */
  datatype Handed = Handed(request: nat, message: Message)

  /** A request that was put in the slot: control or not, its draw number in its
      own counter, and its bytes as they went out. */
  datatype Request = Request(ctl: bool, number: nat, bytes: seq<Byte>)

  /** `current` is s_pRequest and `response` s_pResponse.  `sent` and `handed`
      record the requests and which request's caller got which message. */
  datatype State = State(
    muxDraws: nat,
    ctlDraws: nat,
    sent: seq<Request>,
    current: Option<nat>,
    response: Option<Message>,
    waiting: bool,
    wants: bool,
    handed: seq<Handed>)

  datatype Event =
    | Send(qmiType: Byte, client: Byte, body: seq<Byte>, wants: bool, accepted: bool)
    | Receive(message: Message)
    | Disconnect
    | Return(timedOut: bool)

  /** QmiWwanSendQMI folds the second data service into the first, unless it has
      refused the request before, for want of a client id. */
  function WireType(qmiType: Byte, client: Byte): Byte
  {
    if qmiType == TYPE_WDS_IPV6 && client != 0 then TYPE_WDS else qmiType
  }

  /** A service without a client id cannot be used. */
  predicate Refused(qmiType: Byte, client: Byte)
  {
    qmiType != TYPE_CTL && client == 0
  }

  /** The request as it stands in the slot: header with the length of all but its
      first byte, service and client; flags; an id of one byte in control messages
      and two in others; then `body`, from the message's own type and length on. */
  function WireBytes(qmiType: Byte, client: Byte, tid: nat, body: seq<Byte>): (m: seq<Byte>)
    requires tid < 65536 && (qmiType == TYPE_CTL ==> tid < 256) && 4 <= |body|
    ensures HasHeader(m)
  {
    var id := if qmiType == TYPE_CTL then [tid] else [Low(tid), High(tid)];
    var length := 6 + |id| + |body|;
    [1, Low(length), High(length), 0, WireType(qmiType, client), if qmiType == TYPE_CTL then 0 else client, 0] + id + body
  }

  lemma {:induction false} WireFields(qmiType: Byte, client: Byte, tid: nat, body: seq<Byte>)
    requires tid < 65536 && (qmiType == TYPE_CTL ==> tid < 256) && 4 <= |body|
    ensures var m := WireBytes(qmiType, client, tid, body);
            m[4] == WireType(qmiType, client) && TransactionId(m, qmiType == TYPE_CTL) == tid
  {
    Le16RoundTrip(tid);
  }

  lemma {:induction false} WireLength(qmiType: Byte, client: Byte, tid: nat, body: seq<Byte>)
    requires tid < 65536 && (qmiType == TYPE_CTL ==> tid < 256) && 4 <= |body|
    ensures var m := WireBytes(qmiType, client, tid, body); |m| <= 65536 ==> Le16(m[1], m[2]) + 1 == |m|
  {
    var n := 6 + (if qmiType == TYPE_CTL then 1 else 2) + |body|;
    if n < 65536 {
      Le16RoundTrip(n);
    }
  }

  function NewRequest(s: State, e: Event): (r: Request)
    requires e.Send? && 4 <= |e.body|
    ensures r.number == (if r.ctl then s.ctlDraws else s.muxDraws) + 1
    ensures HasHeader(r.bytes) && (r.ctl <==> r.bytes[4] == TYPE_CTL)
    ensures TransactionId(r.bytes, r.ctl) == Tid(r.number, r.ctl)
    ensures r.ctl == (e.qmiType == TYPE_CTL) && 1 <= Tid(r.number, r.ctl) <= Ids(r.ctl)
  {
    var ctl := e.qmiType == TYPE_CTL;
    var number := (if ctl then s.ctlDraws else s.muxDraws) + 1;
    var tid := Tid(number, ctl);
    TidRange(number, ctl);
    WireFields(e.qmiType, e.client, tid, e.body);
    Request(ctl, number, WireBytes(e.qmiType, e.client, tid, e.body))
  }

  /** Composing draws an id; the request then fills the slot, and if the device
      accepts it the caller waits. */
  function Installed(s: State, r: Request, wants: bool, accepted: bool): State
  {
    s.(muxDraws := if r.ctl then s.muxDraws else r.number,
       ctlDraws := if r.ctl then r.number else s.ctlDraws,
       sent := s.sent + [r],
       current := Some(|s.sent|),
       response := None,
       waiting := accepted,
       wants := wants)
  }

  function OnReceive(s: State, m: Message): State
    requires HasHeader(m.bytes)
    requires s.current.Some? ==> s.current.value < |s.sent| && HasHeader(s.sent[s.current.value].bytes)
  {
    if s.current.Some? && IsResponse(s.sent[s.current.value].bytes, m.bytes)
    then s.(current := None, response := Some(m))
    else s
  }

  function OnReturn(s: State, timedOut: bool): State
    requires s.sent != []
  {
    if !timedOut && s.response.Some? && s.wants
    then s.(waiting := false, handed := s.handed + [Handed(|s.sent| - 1, s.response.value)])
    else s.(waiting := false, response := if timedOut then s.response else None)
  }

  /** A modem that echoes type, client and transaction id in its replies; all
      other messages (indications) carry transaction id 0. */
  predicate Honest(s: State, m: Message)
  {
    && HasHeader(m.bytes)
    && (m.Reply? ==>
          && m.to < |s.sent| && HasHeader(s.sent[m.to].bytes)
          && m.bytes[4] == s.sent[m.to].bytes[4] && m.bytes[5] == s.sent[m.to].bytes[5]
          && TransactionId(m.bytes, s.sent[m.to].ctl) == TransactionId(s.sent[m.to].bytes, s.sent[m.to].ctl))
    && (m.Other? ==> TransactionId(m.bytes, m.bytes[4] == TYPE_CTL) == 0)
  }

  /** One sending thread: it sends when it is not waiting for a reply. */
  predicate Enabled(s: State, e: Event)
  {
    match e
    case Send(_, _, body, _, _) => !s.waiting && 4 <= |body|
    case Receive(m) => HasHeader(m.bytes)
    case Disconnect => true
    case Return(_) => s.waiting
  }

  /** What ties the slot to the last request. */
  predicate Consistent(s: State)
  {
    && (forall k :: 0 <= k < |s.sent| ==> Numbered(s, s.sent[k]))
    && (s.current.Some? ==> s.current.value == |s.sent| - 1)
    && (s.response.Some? ==> s.sent != [] && HasHeader(s.response.value.bytes)
                             && IsResponse(s.sent[|s.sent| - 1].bytes, s.response.value.bytes))
    && (s.waiting ==> s.sent != [])
  }

  /** A request carries the id of its draw. */
  predicate Numbered(s: State, r: Request)
  {
    && HasHeader(r.bytes)
    && 0 < r.number <= (if r.ctl then s.ctlDraws else s.muxDraws)
    && (r.ctl <==> r.bytes[4] == TYPE_CTL)
    && TransactionId(r.bytes, r.ctl) == Tid(r.number, r.ctl)
  }

  function Step(s: State, e: Event): State
    requires Consistent(s) && Enabled(s, e)
  {
    match e
    case Send(qmiType, client, _, wants, accepted) =>
      Installed(s, NewRequest(s, e), wants, accepted && !Refused(qmiType, client))
    case Receive(m) => OnReceive(s, m)
    case Disconnect => if s.current.Some? then s.(current := None, response := None) else s
    case Return(timedOut) => OnReturn(s, timedOut)
  }

  const START: State := State(0, 0, [], None, None, false, false, [])

  lemma InstallKeepsConsistent(s: State, r: Request, wants: bool, accepted: bool)
    requires Consistent(s)
    requires r.number == (if r.ctl then s.ctlDraws else s.muxDraws) + 1
    requires HasHeader(r.bytes) && (r.ctl <==> r.bytes[4] == TYPE_CTL)
    requires TransactionId(r.bytes, r.ctl) == Tid(r.number, r.ctl)
    ensures Consistent(Installed(s, r, wants, accepted))
  {
    var t := Installed(s, r, wants, accepted);
    forall k | 0 <= k < |t.sent|
      ensures Numbered(t, t.sent[k])
    {
      if k < |s.sent| {
        assert Numbered(s, s.sent[k]);
      }
    }
  }

  lemma StepKeepsConsistent(s: State, e: Event)
    requires Consistent(s) && Enabled(s, e)
    ensures Consistent(Step(s, e))
    ensures s.sent <= Step(s, e).sent
  {
    if e.Send? {
      InstallKeepsConsistent(s, NewRequest(s, e), e.wants, e.accepted && !Refused(e.qmiType, e.client));
    } else if e.Receive? {
      ReceiveKeepsConsistent(s, e.message);
    } else {
      SameRequestsNumbered(s, Step(s, e));
    }
  }

  lemma SameRequestsNumbered(s: State, t: State)
    requires Consistent(s) && t.sent == s.sent && t.ctlDraws == s.ctlDraws && t.muxDraws == s.muxDraws
    ensures forall k :: 0 <= k < |t.sent| ==> Numbered(t, t.sent[k])
  {
    forall k | 0 <= k < |t.sent|
      ensures Numbered(t, t.sent[k])
    {
      assert Numbered(s, s.sent[k]);
    }
  }

  lemma ReceiveKeepsConsistent(s: State, m: Message)
    requires Consistent(s) && HasHeader(m.bytes)
    ensures s.current.Some? ==> HasHeader(s.sent[s.current.value].bytes)
    ensures Consistent(OnReceive(s, m))
  {
    if s.current.Some? {
      assert Numbered(s, s.sent[s.current.value]);
    }
    SameRequestsNumbered(s, OnReceive(s, m));
  }

  /** A message answers request number j: its own reply, or one whose request is
      a whole number of id rounds older in the same counter. */
  predicate Answers(s: State, j: nat, m: Message)
  {
    && j < |s.sent|
    && m.Reply? && m.to <= j
    && s.sent[m.to].ctl == s.sent[j].ctl
    && s.sent[m.to].number <= s.sent[j].number
    && (s.sent[j].number - s.sent[m.to].number) % Ids(s.sent[j].ctl) == 0
  }

  /** Requests of one counter are numbered in the order they are sent. */
  predicate InOrder(s: State)
  {
    forall i, j :: 0 <= i < j < |s.sent| && s.sent[i].ctl == s.sent[j].ctl ==> s.sent[i].number < s.sent[j].number
  }

  lemma StepKeepsOrder(s: State, e: Event)
    requires Consistent(s) && Enabled(s, e) && InOrder(s)
    ensures InOrder(Step(s, e))
  {
    if e.Send? {
      var t := Step(s, e);
      var n := |s.sent|;
      forall i, j | 0 <= i < j < |t.sent| && t.sent[i].ctl == t.sent[j].ctl
        ensures t.sent[i].number < t.sent[j].number
      {
        if j == n {
          assert Numbered(s, s.sent[i]);
        }
      }
    }
  }

  /** A matched message is a reply with the same id, never an indication. */
  lemma MatchAnswers(s: State, m: Message)
    requires Consistent(s) && InOrder(s) && s.sent != [] && Honest(s, m)
    requires IsResponse(s.sent[|s.sent| - 1].bytes, m.bytes)
    ensures Answers(s, |s.sent| - 1, m)
  {
    var j := |s.sent| - 1;
    assert Numbered(s, s.sent[j]);
    var r := s.sent[j];
    TidRange(r.number, r.ctl);
    assert m.Reply?;
    var q := s.sent[m.to];
    assert Numbered(s, q);
    if m.to < j {
      assert q.number < r.number;
    }
    SameTidIff(q.number, r.number, r.ctl);
  }

  /** A message with transaction id 0 is never taken for a reply. */
  lemma {:induction false} ZeroIdNeverMatches(s: State, k: nat, m: seq<Byte>)
    requires Consistent(s) && k < |s.sent| && HasHeader(m) && TransactionId(m, s.sent[k].ctl) == 0
    ensures HasHeader(s.sent[k].bytes) && !IsResponse(s.sent[k].bytes, m)
  {
    var r := s.sent[k];
    assert Numbered(s, r);
    TidRange(r.number, r.ctl);
  }

  /** Exactly when the reply to request i is taken for the reply to the later
      request j: the same service and client, and whole rounds of ids between. */
  lemma {:induction false} StaleTakenIff(s: State, i: nat, j: nat, m: Message)
    requires Consistent(s) && InOrder(s) && Honest(s, m) && m.Reply? && m.to == i <= j < |s.sent|
    ensures HasHeader(s.sent[j].bytes)
    ensures IsResponse(s.sent[j].bytes, m.bytes) <==>
            && s.sent[i].bytes[4] == s.sent[j].bytes[4] && s.sent[i].bytes[5] == s.sent[j].bytes[5]
            && s.sent[i].number <= s.sent[j].number
            && (s.sent[j].number - s.sent[i].number) % Ids(s.sent[j].ctl) == 0
  {
    var q, r := s.sent[i], s.sent[j];
    assert Numbered(s, q) && Numbered(s, r);
    if q.ctl == r.ctl {
      if i < j {
        assert q.number < r.number;
      }
      SameTidIff(q.number, r.number, r.ctl);
    }
  }

  predicate AllAnswered(s: State)
  {
    forall k :: 0 <= k < |s.handed| ==> Answers(s, s.handed[k].request, s.handed[k].message)
  }

  lemma AnswersStays(s: State, t: State, j: nat, m: Message)
    requires s.sent <= t.sent && Answers(s, j, m)
    ensures Answers(t, j, m)
  {
    assert t.sent[j] == s.sent[j] && t.sent[m.to] == s.sent[m.to];
  }

  /** Events that hand nothing over only add requests. */
  lemma OthersKeepAnswered(s: State, t: State)
    requires AllAnswered(s) && s.sent <= t.sent && t.handed == s.handed
    ensures AllAnswered(t)
  {
    forall k | 0 <= k < |t.handed|
      ensures Answers(t, t.handed[k].request, t.handed[k].message)
    {
      AnswersStays(s, t, t.handed[k].request, t.handed[k].message);
    }
  }

  /** What waits in the response slot was sent by an echoing modem. */
  predicate Truthful(s: State)
  {
    s.response.Some? ==> Honest(s, s.response.value)
  }

  predicate HonestEvent(s: State, e: Event)
  {
    e.Receive? ==> Honest(s, e.message)
  }

  lemma {:induction false} StepKeepsTruthful(s: State, e: Event)
    requires Consistent(s) && Enabled(s, e) && HonestEvent(s, e) && Truthful(s)
    ensures Truthful(Step(s, e))
  {
  }

  lemma ReturnKeepsAnswered(s: State, timedOut: bool)
    requires Consistent(s) && InOrder(s) && Truthful(s) && AllAnswered(s) && s.waiting
    ensures AllAnswered(OnReturn(s, timedOut))
  {
    var t := OnReturn(s, timedOut);
    if s.response.Some? {
      MatchAnswers(s, s.response.value);
    }
    forall k | 0 <= k < |t.handed|
      ensures Answers(t, t.handed[k].request, t.handed[k].message)
    {
      if k < |s.handed| {
        assert t.handed[k] == s.handed[k];
      }
      AnswersStays(s, t, t.handed[k].request, t.handed[k].message);
    }
  }

  lemma StepKeepsAnswered(s: State, e: Event)
    requires Consistent(s) && Enabled(s, e) && InOrder(s) && Truthful(s) && AllAnswered(s)
    ensures AllAnswered(Step(s, e))
  {
    StepKeepsConsistent(s, e);
    if e.Return? {
      ReturnKeepsAnswered(s, e.timedOut);
    } else {
      OthersKeepAnswered(s, Step(s, e));
    }
  }

  /** Runs of the transport. */
  datatype Run = Empty | Then(before: Run, e: Event)

  ghost predicate Possible(r: Run)
  {
    match r
    case Empty => true
    case Then(before, e) => Possible(before) && Consistent(After(before)) && Enabled(After(before), e)
  }

  ghost function After(r: Run): State
  {
    match r
    case Empty => START
    case Then(before, e) =>
      if Consistent(After(before)) && Enabled(After(before), e) then Step(After(before), e) else After(before)
  }

  /** All messages of the run come from a modem that echoes service, client and id. */
  ghost predicate HonestRun(r: Run)
  {
    match r
    case Empty => true
    case Then(before, e) => HonestRun(before) && HonestEvent(After(before), e)
  }

  /** Stale-reply safety: in every run with such a modem, whatever is handed to the caller of
      request j is a reply to a request i of the same counter with j - i a
      multiple of 65535 (255 for control messages). */
  lemma {:induction false} StaleReplySafety(r: Run)
    requires Possible(r) && HonestRun(r)
    ensures Consistent(After(r)) && InOrder(After(r)) && Truthful(After(r)) && AllAnswered(After(r))
  {
    match r
    case Empty =>
    case Then(before, e) =>
      StaleReplySafety(before);
      StepKeepsConsistent(After(before), e);
      StepKeepsOrder(After(before), e);
      StepKeepsTruthful(After(before), e);
      StepKeepsAnswered(After(before), e);
  }

  /** So while fewer than a round of requests lie between, every caller gets the
      reply to its own request. */
  lemma OwnReply(s: State, k: nat)
    requires InOrder(s) && AllAnswered(s) && k < |s.handed|
    requires var h := s.handed[k];
             s.sent[h.request].number < s.sent[h.message.to].number + Ids(s.sent[h.request].ctl)
    ensures s.handed[k].message.to == s.handed[k].request
  {
    var h := s.handed[k];
    assert Answers(s, h.request, h.message);
    var i, j := s.sent[h.message.to].number, s.sent[h.request].number;
    assert j - i == 0;
  }

  /** And the reply to the request in the slot is accepted. */
  lemma CurrentReplyAccepted(s: State, m: Message)
    requires Consistent(s) && Honest(s, m) && s.current == Some(|s.sent| - 1) && m.Reply? && m.to == |s.sent| - 1
    ensures OnReceive(s, m).response == Some(m)
  {
    assert Numbered(s, s.sent[m.to]);
  }

  /** And it is handed over: to a caller that waits and wants it, the reply to its own
      request, as soon as it has arrived and the caller goes on. */
  lemma {:induction false} ReplyIsHanded(s: State, j: nat, m: Message)
    requires Consistent(s) && s.waiting && s.wants && s.current == Some(j)
    requires Honest(s, m) && m.Reply? && m.to == j
    ensures var t := Step(s, Receive(m));
            && Consistent(t) && t.waiting && t.response == Some(m) && t.current == None
            && Step(t, Return(false)) == t.(waiting := false, handed := s.handed + [Handed(j, m)])
  {
    CurrentReplyAccepted(s, m);
    StepKeepsConsistent(s, Receive(m));
  }

  /** When a caller gets something: if it goes on without a timeout, wants a response
      and one is there; then it gets that one, and nobody else gets anything. */
  lemma {:induction false} HandedIff(s: State, e: Event)
    requires Consistent(s) && Enabled(s, e)
    ensures var t := Step(s, e);
            if e == Return(false) && s.response.Some? && s.wants
            then t.handed == s.handed + [Handed(|s.sent| - 1, s.response.value)]
            else t.handed == s.handed
  {
  }

  /** A lost device leaves a caller that still waits for a reply nothing to take; a
      reply that has arrived before is not lost. */
  lemma {:induction false} LostDeviceHandsNothing(s: State)
    requires Consistent(s) && s.waiting
    ensures s.current.None? ==> Step(s, Disconnect) == s
    ensures s.current.Some? ==>
              var t := Step(s, Disconnect);
              t.current == None && t.response == None && Consistent(t) && Step(t, Return(false)).handed == s.handed
  {
    StepKeepsConsistent(s, Disconnect);
  }

  /** The header of a request, byte by byte. */
  lemma {:induction false} WireLayout(qmiType: Byte, client: Byte, tid: nat, body: seq<Byte>)
    requires tid < 65536 && (qmiType == 0 ==> tid < 256) && 4 <= |body|
    ensures var m := WireBytes(qmiType, client, tid, body);
            && m[0] == 1 && m[3] == 0 && m[6] == 0
            && m[4] == (if qmiType == 0x11 && client != 0 then 0x01 else qmiType)
            && m[5] == (if qmiType == 0 then 0 else client)
            && (if qmiType == 0 then m[7] == tid && m[8..] == body
                else m[7] == tid % 256 && m[8] == tid / 256 && m[9..] == body)
  {
  }

  /** A request is waited for exactly if the device takes it, which it does not do
      without a client id; control messages need none. */
  lemma {:induction false} WaitsIff(s: State, e: Event)
    requires Consistent(s) && Enabled(s, e) && e.Send?
    ensures var t := Step(s, e);
            && (t.waiting <==> e.accepted && (e.qmiType == 0 || e.client != 0))
            && t.wants == e.wants && t.current == Some(|s.sent|) && t.response == None
            && |t.sent| == |s.sent| + 1
            && t.sent[|s.sent|].number == (if e.qmiType == 0 then s.ctlDraws else s.muxDraws) + 1
  {
  }

  // ----- the transport as it runs --------------------------------------------

  /** The statics of the transport: both id counters and the two slots. */
  class Transport {
    const mux: Counter
    const ctl: Counter
    var current: Option<seq<Byte>>
    var response: Option<Message>
    var waiting: bool
    var wants: bool
    ghost var sent: seq<Request>
    ghost var handed: seq<Handed>

    ghost predicate Valid()
      reads this, mux, ctl
    {
      && mux != ctl && mux.Valid() && ctl.Valid() && !mux.ctl && ctl.ctl
      && Consistent(Model())
      && (current.Some? ==> sent != [] && current.value == sent[|sent| - 1].bytes)
    }

    ghost function Model(): State
      reads this, mux, ctl
    {
      State(mux.draws, ctl.draws, sent, if current.Some? && sent != [] then Some(|sent| - 1) else None,
            response, waiting, wants, handed)
    }

    constructor ()
      ensures Valid() && Model() == START && fresh(mux) && fresh(ctl)
    {
      mux := new Counter(false);
      ctl := new Counter(true);
      current, response, waiting, wants := None, None, false, false;
      sent, handed := [], [];
    }

    /** Composing and sending a request, up to the wait. */
    method SendRequest(qmiType: Byte, client: Byte, body: seq<Byte>, wanted: bool, accepted: bool)
      requires Valid() && !waiting && 4 <= |body|
      modifies this, mux, ctl
      ensures Valid()
      ensures Model() == Step(old(Model()), Send(qmiType, client, body, wanted, accepted))
    {
      ghost var r := NewRequest(Model(), Send(qmiType, client, body, wanted, accepted));
      SendAs(r, qmiType, client, body, wanted, accepted && !Refused(qmiType, client));
    }

    /** The same for the request `r` that is due. */
    method SendAs(ghost r: Request, qmiType: Byte, client: Byte, body: seq<Byte>, wanted: bool, accepted: bool)
      requires Valid() && 4 <= |body| && r.ctl == (qmiType == TYPE_CTL)
      requires r.number == (if r.ctl then ctl.draws else mux.draws) + 1 && 1 <= Tid(r.number, r.ctl) <= Ids(r.ctl)
      requires r.bytes == WireBytes(qmiType, client, Tid(r.number, r.ctl), body)
      requires (r.ctl <==> r.bytes[4] == TYPE_CTL) && TransactionId(r.bytes, r.ctl) == Tid(r.number, r.ctl)
      modifies this, mux, ctl
      ensures Valid() && Model() == Installed(old(Model()), r, wanted, accepted)
    {
      InstallKeepsConsistent(Model(), r, wanted, accepted);
      var bytes := Compose(qmiType, client, body);
      Install(bytes, r, wanted, accepted);
      assert Model() == Installed(old(Model()), r, wanted, accepted);
    }

    /** The request takes the slot. */
    method Install(bytes: seq<Byte>, ghost r: Request, wanted: bool, accepted: bool)
      requires bytes == r.bytes
      modifies this
      ensures current == Some(bytes) && response == None && waiting == accepted && wants == wanted
      ensures sent == old(sent) + [r] && handed == old(handed)
    {
      current, response, waiting, wants := Some(bytes), None, accepted, wanted;
      sent := sent + [r];
    }

    /** ComposeQMUXMsg or ComposeQCTLMsg: the next id goes into the header. */
    method Compose(qmiType: Byte, client: Byte, body: seq<Byte>) returns (bytes: seq<Byte>)
      requires mux != ctl && mux.Valid() && ctl.Valid() && !mux.ctl && ctl.ctl && 4 <= |body|
      modifies mux, ctl
      ensures mux.Valid() && ctl.Valid()
      ensures mux.draws == old(mux.draws) + if qmiType == TYPE_CTL then 0 else 1
      ensures ctl.draws == old(ctl.draws) + if qmiType == TYPE_CTL then 1 else 0
      ensures var tid := if qmiType == TYPE_CTL then Tid(ctl.draws, true) else Tid(mux.draws, false);
              1 <= tid <= Ids(qmiType == TYPE_CTL) && bytes == WireBytes(qmiType, client, tid, body)
    {
      var tid;
      if qmiType == TYPE_CTL {
        tid := ctl.Draw();
      } else {
        tid := mux.Draw();
      }
      bytes := WireBytes(qmiType, client, tid, body);
    }

    /** QmiThreadRecvQMI: a message that answers the request in the slot empties
        it; any other leaves both slots alone. */
    method Deliver(m: Message)
      requires Valid() && HasHeader(m.bytes)
      modifies this
      ensures Valid() && Model() == Step(old(Model()), Receive(m))
    {
      StepKeepsConsistent(Model(), Receive(m));
      if current.Some? && IsResponse(current.value, m.bytes) {
        current := None;
        response := Some(m);
      }
    }

    /** QmiThreadRecvQMI(NULL): the device is gone. */
    method DeliverNone()
      requires Valid()
      modifies this
      ensures Valid() && Model() == Step(old(Model()), Disconnect)
    {
      StepKeepsConsistent(Model(), Disconnect);
      if current.Some? {
        current, response := None, None;
      }
    }

    /** The waiting caller goes on, after a wake-up or a timeout; a response it
        does not take is dropped. */
    method Resume(timedOut: bool) returns (got: Option<Message>)
      requires Valid() && waiting
      modifies this
      ensures Valid() && Model() == OnReturn(old(Model()), timedOut)
      ensures got == if !timedOut && old(wants) then old(response) else None
      ensures handed == old(handed) + if got.Some? then [Handed(|sent| - 1, got.value)] else []
    {
      StepKeepsConsistent(Model(), Return(timedOut));
      got := if timedOut || !wants then None else response;
      waiting := false;
      if got.Some? {
        handed := handed + [Handed(|sent| - 1, got.value)];
      } else if !timedOut {
        response := None;
      }
      assert Model() == OnReturn(old(Model()), timedOut);
    }
  }

  /** Any run of the statics is a run of the protocol; with an echoing modem, so,
      whatever callers were handed answers their requests. */
  method Execute(r: Run) returns (t: Transport)
    requires Possible(r)
    ensures fresh(t) && fresh(t.mux) && fresh(t.ctl) && t.Valid() && t.Model() == After(r)
    ensures HonestRun(r) ==> AllAnswered(t.Model())
  {
    match r
    case Empty =>
      t := new Transport();
    case Then(before, e) =>
      t := Execute(before);
      match e {
        case Send(qmiType, client, body, wants, accepted) => t.SendRequest(qmiType, client, body, wants, accepted);
        case Receive(message) => t.Deliver(message);
        case Disconnect => t.DeliverNone();
        case Return(timedOut) => var _ := t.Resume(timedOut);
      }
      if HonestRun(r) {
        StaleReplySafety(r);
      }
  }
}
