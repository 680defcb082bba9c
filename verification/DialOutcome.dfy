/** What the handlers of the dial loop leave behind, said by what was asked of the
    modem and what it answered. */
module DialOutcome {
  import opened Common
  import opened DialModel
  import opened DialRetry
  import opened DialBackoff

  // ----- the failure count ---------------------------------------------------

  /** How many dials at the end of the log failed, counted on the log alone. */
  function Streak(log: seq<Dial>): (n: nat)
    ensures n <= |log|
  {
    if log == [] || !log[|log| - 1].failed then 0 else 1 + Streak(log[..|log| - 1])
  }

  lemma {:induction false} StreakNext(log: seq<Dial>, d: Dial)
    ensures Streak(log + [d]) == if d.failed then Streak(log) + 1 else 0
  {
    assert (log + [d])[..|log|] == log;
  }

  /** A dial counts one more failure, or starts over. */
  lemma {:induction false} DialCounts(c: Config, d: State, a: Answers)
    requires (c.v4 ==> Definite(d.v4)) && (c.v6 ==> Definite(d.v6)) && (c.v4 || c.v6)
    ensures var t := AfterDial(c, d, a);
            && t.v4 == d.v4 && t.v6 == d.v6
            && t.fails == (if AllUp(c, d) then 0 else d.fails + 1)
            && t.allowAt == a.later + (if AllUp(c, d) then 0 else 1000 * Backoff(d.fails))
  {
  }

  /** A dial against the log before it. */
  lemma {:induction false} DialStepCounts(c: Config, s: State, a: Answers, log: seq<Dial>)
    requires Enabled(s, ReadSignal(a)) && Settled(c, s) && Dials(c, s, ReadSignal(a))
    requires (c.v4 || c.v6) && s.fails == Streak(log)
    ensures var t := OnStart(c, Taken(s, a), a);
            && t.fails == Streak(log + [Dial(a.now, !AllUp(c, t))])
            && t.allowAt == a.later + (if AllUp(c, t) then 0 else 1000 * Backoff(Streak(log)))
  {
    var d := Dial6(c, Dial4(c, Taken(s, a), a), a);
    StepKeepsSettledDial(c, Taken(s, a), a);
    DialCounts(c, d, a);
    assert d.fails == s.fails;
    StreakNext(log, Dial(a.now, !AllUp(c, d)));
  }

  /** Any other event leaves the count as the log has it. */
  lemma {:induction false} OtherStepCounts(c: Config, s: State, e: Event, log: seq<Dial>)
    requires Enabled(s, e) && BackoffKept(c, s, log) && !Dials(c, s, e)
    requires (c.v4 || c.v6) && s.fails == Streak(log)
    ensures Step(c, s, e).fails == Streak(log)
  {
    if e.ReadSignal? {
      var t := Taken(s, e.a);
      match s.queue[0]
      case Check => CheckKeepsFails(c, t, e.a);
      case Start =>
        if DialAllowed(s, e.a) {
          NoDialNoCount(c, t, e.a);
          assert log != [] && log[|log| - 1].failed ==> Down(c, s);
        }
      case Stop =>
    }
  }

  lemma {:induction false} CheckKeepsFails(c: Config, s: State, a: Answers)
    ensures OnCheck(c, s, a).fails == s.fails
  {
    var k := Check4(c, Registered(s, a), a);
    assert k.fails == s.fails;
  }

  /** A START with every family up counts nothing and clears the count. */
  lemma {:induction false} NoDialNoCount(c: Config, s: State, a: Answers)
    requires AllUp(c, s) && (c.v4 || c.v6)
    ensures AfterDial(c, Dial6(c, Dial4(c, s, a), a), a).fails == 0
  {
    assert Dial4(c, s, a) == s;
    assert Dial6(c, s, a) == s;
  }

  /** In every steady run the failure count is the number of failed dials since the
      last good one, no more and no less. */
  lemma {:induction false} FailsAreTheStreak(c: Config, s: State, evs: seq<Event>)
    requires Init(c, s) && Possible(c, s, evs) && Steady(c, s, evs)
    ensures After(c, s, evs).fails == Streak(DialLog(c, s, evs))
    decreases |evs|
  {
    if evs != [] {
      var n := |evs| - 1;
      FailsAreTheStreak(c, s, evs[..n]);
      RunKeepsBackoff(c, s, evs[..n]);
      var t, log := After(c, s, evs[..n]), DialLog(c, s, evs[..n]);
      if Dials(c, t, evs[n]) {
        DialStepCounts(c, t, evs[n].a, log);
      } else {
        OtherStepCounts(c, t, evs[n], log);
      }
    }
  }

  /** The pause after a dial, exactly: none after a good one; after a failed one as
      many seconds as the streak before it demands, from its last clock reading on. */
  lemma {:induction false} PauseIsExact(c: Config, s: State, evs: seq<Event>, e: Event)
    requires Init(c, s) && Possible(c, s, evs) && Steady(c, s, evs)
    requires var t := After(c, s, evs); Enabled(t, e) && Dials(c, t, e)
    ensures var t := After(c, s, evs);
            var u := Step(c, t, e);
            u.allowAt == e.a.later + (if AllUp(c, u) then 0 else 1000 * Backoff(Streak(DialLog(c, s, evs))))
  {
    FailsAreTheStreak(c, s, evs);
    RunKeepsBackoff(c, s, evs);
    DialStepCounts(c, After(c, s, evs), e.a, DialLog(c, s, evs));
  }

  // ----- START ---------------------------------------------------------------

  /** The modem set up the IPv4 call: at once, or at the second try under the other
      auth mode, which is made after a refusal if there is a login. */
  predicate SetUp4(c: Config, a: Answers)
  {
    a.setup4 == 0 || Retried4(c, a)
  }

  predicate Retried4(c: Config, a: Answers)
  {
    a.setup4 > 0 && c.credentials && a.retry4 == 0
  }

  /** A START dials if the modem is attached or loopback is on, and the time has come. */
  lemma {:induction false} DialsIff(c: Config, s: State, e: Event)
    requires Enabled(s, e)
    ensures Dials(c, s, e) <==>
            && e.ReadSignal? && s.queue[0] == Start && (s.attach == 1 || s.loopback != 0) && s.allowAt <= e.a.now
            && ((c.v4 && s.v4 != Connected) || (c.v6 && s.v6 != Connected))
  {
  }

  /** Which families a dial brings up, and what it does to auth mode and address. */
  lemma {:induction false} DialConnectsIff(c: Config, s: State, a: Answers)
    requires DialAllowed(s, a)
    ensures var t := OnStart(c, s, a);
            var tried := c.v4 && s.v4 != Connected;
            && (t.v4 == Connected <==> s.v4 == Connected || (tried && SetUp4(c, a) && a.dialIp4.ok))
            && (t.v4 != Connected ==> t.v4 == s.v4)
            && t.auth == (if tried && Retried4(c, a) then (if s.auth == 1 then 2 else 1) else s.auth)
            && t.ip4 == (if tried && SetUp4(c, a) then a.dialIp4.address else s.ip4)
            && t.attach == s.attach && t.queue == s.queue && t.loopback == s.loopback
  {
    var d := Dial4(c, s, a);
    var e := Dial6(c, d, a);
    assert e.v4 == d.v4 && e.auth == d.auth && e.ip4 == d.ip4;
  }

  /** IPv6 has its own dial over QMI, or when IPv4 is off; else it follows IPv4. */
  lemma {:induction false} Dial6ConnectsIff(c: Config, s: State, a: Answers)
    requires DialAllowed(s, a)
    ensures var t := OnStart(c, s, a);
            if !c.v6 || s.v6 == Connected then t.v6 == s.v6
            else if c.v4 && c.ops != Qmi then t.v6 == t.v4
            else if a.setup6 == 0 && a.dialIp6Ok then t.v6 == Connected else t.v6 == s.v6
  {
    var d := Dial4(c, s, a);
    assert d.v6 == s.v6;
  }

  /** Without attachment a START does nothing; before the allowed time it only sets
      the alarm; a dial that leaves a family down sets the pause as alarm, any other none. */
  lemma {:induction false} StartSetsAlarm(c: Config, s: State, a: Answers)
    ensures Unattached(s) ==> OnStart(c, s, a) == s
    ensures !Unattached(s) && a.now < s.allowAt ==>
              OnStart(c, s, a) == s.(alarm := AlarmSeconds(s.allowAt, a.later))
    ensures DialAllowed(s, a) ==>
              var t := OnStart(c, s, a); t.alarm == if Down(c, t) then Backoff(s.fails) else s.alarm
  {
    var d := Dial6(c, Dial4(c, s, a), a);
    assert d.alarm == s.alarm && d.fails == s.fails;
  }

  // ----- CHECK ---------------------------------------------------------------

  /** The address the profile has once a call without one was asked for it. */
  function Address(s: State, a: Answers): nat
  {
    if s.ip4 == 0 then a.freshIp4.address else s.ip4
  }

  /** The modem still reports the address in use: the leased one over AT, if there is
      one, the profile's over QMI; MBIM does not ask. */
  predicate AddressStands(c: Config, s: State, a: Answers)
  {
    match c.ops
    case Mbim => true
    case Atc => a.leasedIp4 == 0 || (a.verifyIp4.ok && a.verifyIp4.address == a.leasedIp4)
    case Qmi => a.verifyIp4.ok && a.verifyIp4.address == Address(s, a)
  }

  /** When IPv4 is up after a CHECK, and what it is otherwise. */
  lemma {:induction false} CheckConnectedIff(c: Config, s: State, a: Answers)
    ensures var t := OnCheck(c, s, a);
            var asked := c.v4 && s.v4 != Disconnected && a.query4.Some?;
            && (t.v4 == Connected <==>
                  asked && a.query4 == Some(Connected) && (s.ip4 != 0 || a.freshIp4.ok) && AddressStands(c, s, a))
            && (t.v4 != Connected ==>
                  t.v4 == if asked && a.query4.value != Connected then a.query4.value else Disconnected)
  {
    var r := Registered(s, a);
    assert r.v4 == s.v4 && r.ip4 == s.ip4;
    CheckedV4(c, r, a);
    var k := Check4(c, r, a);
    var l := Check6(c, k, a);
    assert l.v4 == k.v4 && UpdateLink(l).v4 == k.v4;
  }

  lemma {:induction false} CheckedV4(c: Config, s: State, a: Answers)
    ensures var t := Check4(c, s, a);
            var asked := c.v4 && s.v4 != Disconnected && a.query4.Some?;
            && (t.v4 == Connected <==>
                  asked && a.query4 == Some(Connected) && (s.ip4 != 0 || a.freshIp4.ok) && AddressStands(c, s, a))
            && (t.v4 != Connected ==>
                  t.v4 == if asked && a.query4.value != Connected then a.query4.value else Disconnected)
  {
  }

  /** What IPv6 is after a CHECK, and whether the modem counts as attached. */
  lemma {:induction false} CheckSets6(c: Config, s: State, a: Answers)
    ensures var t := OnCheck(c, s, a);
            && t.v6 == (if !c.v6 || s.v6 == Disconnected then Disconnected
                        else if c.v4 && c.ops != Qmi then t.v4
                        else if a.query6.Some? then a.query6.value else s.v6)
            && t.attach == (if s.attach == 1 then 1 else a.attach)
            && t.auth == s.auth && t.loopback == s.loopback && t.alarm == s.alarm
  {
    var r := Registered(s, a);
    var k := Check4(c, r, a);
    assert k == r.(v4 := k.v4, ip4 := k.ip4);
    var l := Check6(c, k, a);
    assert UpdateLink(l).v6 == l.v6 && UpdateLink(l).v4 == l.v4;
  }

  // ----- links, reports, ends ------------------------------------------------

  /** The bits of the mask, and that taking the IPv4 bit away forgets the address. */
  lemma {:induction false} LinkBits(s: State, link: int)
    ensures LinkMask(false, false) == 0 && LinkMask(true, false) == 16
    ensures LinkMask(false, true) == 64 && LinkMask(true, true) == 80
    ensures link == 0 || link == 64 ==> s.link != link ==> LinkChange(s, link).ip4 == 0
    ensures link == 16 || link == 80 ==> LinkChange(s, link).ip4 == s.ip4
  {
  }

  /** What each report and each timer queues, and when the next dial is then allowed. */
  lemma {:induction false} ReportsQueue(c: Config, s: State, e: Event)
    requires Enabled(s, e) && !e.ReadSignal? && e != Quit
    ensures var t := Step(c, s, e);
            && t.v4 == s.v4 && t.v6 == s.v6 && t.fails == s.fails && t.link == s.link && t.running
            && t.queue == s.queue + (match e
                                     case PollTimeout => [Check]
                                     case AlarmFires => [Start]
                                     case StopRequested => [Stop]
                                     case NetworkChanged(attach, _) => if attach == 1 && Down(c, s) then [Start] else []
                                     case CallListChanged(_) => [Check]
                                     case LoopbackChanged(l) => if l != 0 then [Start] else []
                                     case _ => [])
    ensures var t := Step(c, s, e);
            t.allowAt == match e
                         case NetworkChanged(attach, at) => if attach == 1 then s.allowAt else at
                         case CallListChanged(at) => if s.v4 == Connected || s.v6 == Connected then at + 1000 else s.allowAt
                         case _ => s.allowAt
    ensures e.NetworkChanged? ==> Step(c, s, e).attach == e.attach
    ensures e.LoopbackChanged? ==> Step(c, s, e).loopback == e.loopback
  {
    assert s.queue + [] == s.queue;
  }

  /** The loop ends with the link down and the DHCP client stopped, on STOP and on
      every other end. */
  lemma {:induction false} EndTakesLinkDown(c: Config, s: State, e: Event)
    requires Enabled(s, e) && (e == Quit || (e.ReadSignal? && s.queue[0] == Stop)) && (s.dhcp <==> s.link > 0)
    ensures var t := Step(c, s, e); !t.running && t.link == 0 && !t.dhcp
  {
  }

  /** And nothing else ends it. */
  lemma {:induction false} OnlyTheseEnd(c: Config, s: State, e: Event)
    requires Enabled(s, e) && e != Quit && !(e.ReadSignal? && s.queue[0] == Stop)
    ensures Step(c, s, e).running
  {
    if e.ReadSignal? && s.queue[0] == Check {
      CheckQueuesStart(c, Taken(s, e.a), e.a);
    } else if e.ReadSignal? {
      var d := Dial6(c, Dial4(c, Taken(s, e.a), e.a), e.a);
      assert d.running;
    }
  }
}
