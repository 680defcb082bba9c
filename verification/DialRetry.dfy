/** What every run of the dial loop keeps: a disconnected family never loses its
    retry, and the link mask and the DHCP client follow the statuses. */
module DialRetry {
  import opened Common
  import opened DialModel

  // ----- no lost retry -------------------------------------------------------

  /** An alarm is pending that fires within a minute of its being set. */
  predicate AlarmSoon(s: State)
  {
    1 <= s.alarm <= 60
  }

  /** A family that is down will be dialed again: a START or CHECK is queued, an
      alarm fires soon, or dialing waits for the modem to attach. */
  predicate RetryPending(c: Config, s: State)
  {
    Down(c, s) ==> Start in s.queue || Check in s.queue || AlarmSoon(s) || Unattached(s)
  }

  /** The one way to drop a retry: a START that comes too early defers the dial,
      its second clock reading is no longer before the allowed time (so that the
      difference is 0 seconds or wraps around), and nothing is queued behind it. */
  predicate LosesRetry(c: Config, s: State, e: Event)
  {
    && e.ReadSignal?
    && s.queue != [] && s.queue[0] == Start
    && Start !in s.queue[1..] && Check !in s.queue[1..]
    && Down(c, s) && !Unattached(s)
    && e.a.now < s.allowAt
    && s.allowAt <= e.a.later
  }

  /** Exactly when one event of a running loop keeps the retry. */
  lemma StepKeepsRetryIff(c: Config, s: State, e: Event)
    requires Enabled(s, e) && RetryPending(c, s) && PauseBounded(s)
    requires Step(c, s, e).running
    ensures RetryPending(c, Step(c, s, e)) <==> !LosesRetry(c, s, e)
  {
    match e
    case ReadSignal(a) =>
      match s.queue[0] {
        case Start => StartKeepsRetryIff(c, s, a);
        case Check => CheckKeepsRetry(c, Taken(s, a), a);
        case Stop =>
      }
    case NetworkChanged(_, _) => KeptInQueue(c, s, e);
    case CallListChanged(_) => KeptInQueue(c, s, e);
    case _ => KeptInQueue(c, s, e);
  }

  lemma {:induction false} StartKeepsRetryIff(c: Config, s: State, a: Answers)
    requires Enabled(s, ReadSignal(a)) && RetryPending(c, s) && PauseBounded(s) && s.queue[0] == Start
    ensures RetryPending(c, OnStart(c, Taken(s, a), a)) <==> !LosesRetry(c, s, ReadSignal(a))
  {
    var t := Taken(s, a);
    if DialAllowed(t, a) {
      DialKeepsRetry(c, Dial6(c, Dial4(c, t, a), a), a);
    } else if !Unattached(t) {
      DeferralAlarm(s.allowAt, a.now, a.later);
    }
  }

  /** A dial that leaves a family down arms the alarm. */
  lemma {:induction false} DialKeepsRetry(c: Config, s: State, a: Answers)
    ensures RetryPending(c, AfterDial(c, s, a))
  {
  }

  lemma {:induction false} CheckKeepsRetry(c: Config, s: State, a: Answers)
    ensures RetryPending(c, OnCheck(c, s, a))
  {
    var t := UpdateLink(Check6(c, Check4(c, Registered(s, a), a), a));
    SentIsQueued(t, Start);
  }

  lemma {:induction false} SentIsQueued(s: State, x: Signal)
    ensures x in Send(s, x).queue
  {
    assert Send(s, x).queue[|s.queue|] == x;
  }

  /** Events other than a read only ever append to the queue. */
  lemma KeptInQueue(c: Config, s: State, e: Event)
    requires Enabled(s, e) && !e.ReadSignal?
    ensures s.queue <= Step(c, s, e).queue
    ensures forall x :: x in s.queue ==> x in Step(c, s, e).queue
  {
  }

  /** Every state of the run, up to its end, has its retry. */
  predicate AlwaysRetries(c: Config, s: State, evs: seq<Event>)
    requires Possible(c, s, evs)
    decreases |evs|
  {
    (After(c, s, evs).running ==> RetryPending(c, After(c, s, evs))) &&
    (evs != [] ==> AlwaysRetries(c, s, evs[..|evs| - 1]))
  }

  predicate NeverLoses(c: Config, s: State, evs: seq<Event>)
    requires Possible(c, s, evs)
    decreases |evs|
  {
    evs != [] ==>
      var n := |evs| - 1;
      NeverLoses(c, s, evs[..n]) && !LosesRetry(c, After(c, s, evs[..n]), evs[n])
  }

  /** No lost retry, over every run: all states keep the retry if and only if no
      deferral reads the clock a second time when the allowed time has come. */
  lemma {:induction false} NoLostRetry(c: Config, s: State, evs: seq<Event>)
    requires Init(c, s) && Possible(c, s, evs)
    ensures AlwaysRetries(c, s, evs) <==> NeverLoses(c, s, evs)
    decreases |evs|
  {
    if evs != [] {
      var n := |evs| - 1;
      NoLostRetry(c, s, evs[..n]);
      PauseIsBounded(c, s, evs[..n]);
      var t := After(c, s, evs[..n]);
      if AlwaysRetries(c, s, evs[..n]) {
        assert RetryPending(c, t);
        if Step(c, t, evs[n]).running {
          StepKeepsRetryIff(c, t, evs[n]);
        } else if LosesRetry(c, t, evs[n]) {
          LosingKeepsRunning(c, t, evs[n]);
        }
      }
    }
  }

  lemma LosingKeepsRunning(c: Config, s: State, e: Event)
    requires Enabled(s, e) && LosesRetry(c, s, e)
    ensures Step(c, s, e).running
  {
  }

  /** The dial is never put off by more than the longest pause. */
  predicate PauseBounded(s: State)
  {
    s.allowAt <= s.clock + 60000
  }

  lemma StepKeepsPauseBounded(c: Config, s: State, e: Event)
    requires Enabled(s, e) && PauseBounded(s)
    ensures PauseBounded(Step(c, s, e))
  {
    if e.ReadSignal? {
      var t := Taken(s, e.a);
      match s.queue[0]
      case Start => DialKeepsClock(c, t, e.a);
      case Check => CheckKeepsPause(c, t, e.a);
      case Stop =>
    }
  }

  lemma DialKeepsClock(c: Config, s: State, a: Answers)
    ensures var t := Dial6(c, Dial4(c, s, a), a); t.clock == s.clock && t.allowAt == s.allowAt
  {
  }

  lemma CheckKeepsPause(c: Config, s: State, a: Answers)
    ensures var t := OnCheck(c, s, a); t.clock == s.clock && t.allowAt == s.allowAt
  {
    var s1 := Registered(s, a);
    var s2 := Check4(c, s1, a);
    assert s2.clock == s.clock && s2.allowAt == s.allowAt;
  }

  lemma {:induction false} PauseIsBounded(c: Config, s: State, evs: seq<Event>)
    requires Init(c, s) && Possible(c, s, evs)
    ensures PauseBounded(After(c, s, evs))
    decreases |evs|
  {
    if evs != [] {
      var n := |evs| - 1;
      PauseIsBounded(c, s, evs[..n]);
      StepKeepsPauseBounded(c, After(c, s, evs[..n]), evs[n]);
    }
  }

  /** What a deferral arms: an alarm of 1 to 60 seconds, which ends within the
      second after the allowed time, exactly if the second reading still is before
      that time; 0 seconds, which arms nothing, within the second after it; and
      from then on, by wrap-around, a number of seconds that takes years. */
  lemma {:induction false} DeferralAlarm(allowAt: nat, now: nat, later: nat)
    requires now < allowAt <= now + 60000 && now <= later < now + LONG_AGO
    ensures 1 <= AlarmSeconds(allowAt, later) <= 60 <==> later < allowAt
    ensures later < allowAt ==> allowAt <= later + 1000 * AlarmSeconds(allowAt, later) < allowAt + 1000
    ensures AlarmSeconds(allowAt, later) == 0 <==> allowAt <= later < allowAt + 1000
    ensures allowAt + 1000 <= later ==> 5 * 365 * 86400 < AlarmSeconds(allowAt, later)
  {
    var d := allowAt - later + 999;
    if 0 <= d {
      SmallDifference(d);
    } else {
      WrappedDifference(d);
    }
  }

  lemma {:induction false} SmallDifference(d: nat)
    requires d < 100000
    ensures d % ULONG_RANGE / 1000 % UINT_RANGE == d / 1000
  {
    assert d % ULONG_RANGE == d;
    assert d / 1000 < 100;
  }

  /** 2^64 is 1000 (4294967 * 2^32 + 1271310319) + 616. */
  lemma {:induction false} WrappedDifference(d: int)
    requires 0 < 0 - d < LONG_AGO
    ensures d % ULONG_RANGE / 1000 % UINT_RANGE > 5 * 365 * 86400
  {
    var u := ULONG_RANGE + d;
    assert d % ULONG_RANGE == u;
    Quotient(u, u / 1000);
  }

  lemma {:induction false} Quotient(u: nat, q: nat)
    requires ULONG_RANGE - LONG_AGO < u < ULONG_RANGE && 1000 * q <= u < 1000 * q + 1000
    ensures q % UINT_RANGE > 5 * 365 * 86400
  {
    var r: int := q - 4294967 * UINT_RANGE;
    assert 171798690 < r < UINT_RANGE;
    assert q == 4294967 * UINT_RANGE + r;
  }

  lemma Extend(c: Config, s: State, evs: seq<Event>, e: Event)
    requires Possible(c, s, evs) && Enabled(After(c, s, evs), e)
    ensures Possible(c, s, evs + [e])
    ensures After(c, s, evs + [e]) == Step(c, After(c, s, evs), e)
  {
    assert (evs + [e])[..|evs|] == evs;
  }

  const QUIET: Answers := Answers(
    0, 0, 1, 1, IpAnswer(false, 0), 1, false, 1, None, IpAnswer(false, 0), 0, IpAnswer(false, 0), None)

  /** The retry really can be lost: one IPv4 dial fails at 1 s, at 5.999 s the modem
      reports that it is attached, and the START this queues reads the clock again
      at 6 s.  Only the timeout of poll is left. */
  lemma RetryCanBeLost(c: Config, s: State) returns (evs: seq<Event>)
    requires c == Config(true, false, Qmi, false)
    requires Init(c, s) && s.clock == 0 && s.attach == 1
    ensures Possible(c, s, evs) && After(c, s, evs).running
    ensures !RetryPending(c, After(c, s, evs)) && Enabled(After(c, s, evs), PollTimeout)
    ensures AlarmFires !in evs
  {
    evs := [];
    var check := ReadSignal(QUIET);
    Extend(c, s, evs, check);
    evs := evs + [check];
    assert After(c, s, evs).queue == [Start];
    var dial := ReadSignal(QUIET.(now := 1000, later := 1000));
    Extend(c, s, evs, dial);
    evs := evs + [dial];
    assert After(c, s, evs).allowAt == 6000;
    var attached := NetworkChanged(1, 5999);
    Extend(c, s, evs, attached);
    evs := evs + [attached];
    assert After(c, s, evs).queue == [Start];
    DeferralAlarm(6000, 5999, 6000);
    var early := ReadSignal(QUIET.(now := 5999, later := 6000));
    Extend(c, s, evs, early);
    evs := evs + [early];
  }

  /** What happens next in a running loop whose queue is empty: the timeout of poll
      queues a CHECK, and once that is read a family that is still down has a START. */
  ghost predicate PollHelps(c: Config, s: State)
  {
    Enabled(s, PollTimeout) &&
    var t := Step(c, s, PollTimeout);
    forall a: Answers :: Enabled(t, ReadSignal(a)) ==>
      var u := Step(c, t, ReadSignal(a));
      u.running && (Down(c, u) ==> Start in u.queue)
  }

  /** Even then a family that is down is looked at again, in whatever state the loop
      runs: a signal is queued that dials, checks or ends the loop, or poll will help. */
  lemma {:induction false} AlwaysLookedAtAgain(c: Config, s: State)
    requires s.running
    ensures Start in s.queue || Check in s.queue || Stop in s.queue || PollHelps(c, s)
  {
    if s.queue == [] {
      PollQueuesStart(c, s);
    } else {
      match s.queue[0]
      case Start => assert s.queue[0] in s.queue;
      case Check => assert s.queue[0] in s.queue;
      case Stop => assert s.queue[0] in s.queue;
    }
  }

  lemma {:induction false} PollQueuesStart(c: Config, s: State)
    requires s.running && s.queue == []
    ensures PollHelps(c, s)
  {
    var t := Step(c, s, PollTimeout);
    forall a: Answers | Enabled(t, ReadSignal(a))
      ensures var u := Step(c, t, ReadSignal(a)); u.running && (Down(c, u) ==> Start in u.queue)
    {
      CheckQueuesStart(c, Taken(t, a), a);
    }
  }

  lemma {:induction false} CheckQueuesStart(c: Config, s: State, a: Answers)
    ensures var u := OnCheck(c, s, a); u.running == s.running && (Down(c, u) ==> Start in u.queue)
  {
    var t := UpdateLink(Check6(c, Check4(c, Registered(s, a), a), a));
    SentIsQueued(t, Start);
  }

  // ----- link agreement ------------------------------------------------------

  predicate Definite(st: Status)
  {
    st == Connected || st == Disconnected
  }

  /** In every state: the DHCP client runs exactly when the mask is a non-zero
      link value, a disabled family is never connected and never in the mask. */
  predicate LinkConsistent(c: Config, s: State)
  {
    && (s.link == -1 || s.link == 0 || exists b4, b6 :: s.link == LinkMask(b4, b6) && (b4 ==> c.v4) && (b6 ==> c.v6))
    && (s.dhcp <==> s.link > 0)
    && (!c.v4 ==> s.v4 != Connected)
    && (!c.v6 ==> s.v6 != Connected)
  }

  lemma StepKeepsLinkConsistent(c: Config, s: State, e: Event)
    requires Enabled(s, e) && LinkConsistent(c, s)
    ensures LinkConsistent(c, Step(c, s, e))
  {
    if e.ReadSignal? {
      var a := e.a;
      var t := Taken(s, a);
      match s.queue[0]
      case Start => StartKeepsLink(c, t, a);
      case Check => CheckSetsLink(c, t, a);
      case Stop =>
    }
  }

  lemma StartKeepsLink(c: Config, s: State, a: Answers)
    ensures var t := OnStart(c, s, a); t.link == s.link && t.dhcp == s.dhcp
    ensures !c.v4 ==> OnStart(c, s, a).v4 == s.v4
    ensures !c.v6 ==> OnStart(c, s, a).v6 == s.v6
  {
    var s1 := Dial4(c, s, a);
    var s2 := Dial6(c, s1, a);
    assert s2.link == s.link && s2.dhcp == s.dhcp;
  }

  /** After a CHECK that ends with two definite statuses the mask holds exactly
      the connected families. */
  lemma CheckSetsLink(c: Config, s: State, a: Answers)
    requires s.dhcp <==> s.link > 0
    ensures var t := OnCheck(c, s, a);
            && (Definite(t.v4) && Definite(t.v6) ==> t.link == LinkMask(t.v4 == Connected, t.v6 == Connected))
            && (t.link == s.link || t.link == 0 || t.link == LinkMask(t.v4 == Connected, t.v6 == Connected))
            && (t.dhcp <==> t.link > 0)
            && (!c.v4 ==> t.v4 == Disconnected)
            && (!c.v6 ==> t.v6 == Disconnected)
  {
    var k := Check6(c, Check4(c, Registered(s, a), a), a);
    CheckKeepsLink(c, s, a);
    UpdateSetsLink(k);
  }

  lemma {:induction false} CheckKeepsLink(c: Config, s: State, a: Answers)
    ensures var k := Check6(c, Check4(c, Registered(s, a), a), a);
            && k.link == s.link && k.dhcp == s.dhcp
            && (!c.v4 ==> k.v4 == Disconnected) && (!c.v6 ==> k.v6 == Disconnected)
  {
    var s1 := Registered(s, a);
    var s2 := Check4(c, s1, a);
    assert s2.link == s.link && s2.dhcp == s.dhcp && (!c.v4 ==> s2.v4 == Disconnected);
  }

  lemma {:induction false} UpdateSetsLink(s: State)
    requires s.dhcp <==> s.link > 0
    ensures var t := UpdateLink(s);
            && (Definite(s.v4) && Definite(s.v6) ==> t.link == LinkMask(s.v4 == Connected, s.v6 == Connected))
            && (t.link == s.link || t.link == 0 || t.link == LinkMask(s.v4 == Connected, s.v6 == Connected))
            && (t.dhcp <==> t.link > 0)
  {
  }

  /** Link agreement over every run. */
  lemma {:induction false} LinkAgreement(c: Config, s: State, evs: seq<Event>)
    requires Init(c, s) && Possible(c, s, evs)
    ensures LinkConsistent(c, After(c, s, evs))
    ensures evs != [] && evs[|evs| - 1].ReadSignal? && After(c, s, evs[..|evs| - 1]).queue[0] == Check ==>
              var t := After(c, s, evs);
              Definite(t.v4) && Definite(t.v6) ==> t.link == LinkMask(t.v4 == Connected, t.v6 == Connected)
    decreases |evs|
  {
    if evs != [] {
      var n := |evs| - 1;
      LinkAgreement(c, s, evs[..n]);
      var t := After(c, s, evs[..n]);
      StepKeepsLinkConsistent(c, t, evs[n]);
      if evs[n].ReadSignal? && t.queue[0] == Check {
        CheckSetsLink(c, Taken(t, evs[n].a), evs[n].a);
      }
    }
  }
}
