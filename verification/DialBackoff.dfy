/** The back-off bound: n failed dials in a row keep the next one away for the
    sum of n growing pauses. */
module DialBackoff {
  import opened Common
  import opened DialModel
  import opened DialRetry

  /** One pass through the dial code: when it was allowed, and whether an enabled
      family is still not connected after it. */
  datatype Dial = Dial(at: nat, failed: bool)

  predicate AllUp(c: Config, s: State)
  {
    (c.v4 ==> s.v4 == Connected) && (c.v6 ==> s.v6 == Connected)
  }

  predicate Dials(c: Config, s: State, e: Event)
  {
    && e.ReadSignal? && s.queue != [] && s.queue[0] == Start
    && DialAllowed(s, e.a) && !AllUp(c, s)
  }

  /** The dials of a run, in order. */
  function DialLog(c: Config, s: State, evs: seq<Event>): seq<Dial>
    requires Possible(c, s, evs)
    decreases |evs|
  {
    if evs == [] then []
    else
      var n := |evs| - 1;
      var t := After(c, s, evs[..n]);
      var earlier := DialLog(c, s, evs[..n]);
      if Dials(c, t, evs[n]) then
        earlier + [Dial(evs[n].a.now, !AllUp(c, Step(c, t, evs[n])))]
      else earlier
  }

  /** Sum of the first n pauses: 5 + 10 + 20 + 40 + 60 + 60 + ... seconds. */
  function BackoffSum(n: nat): nat
  {
    if n == 0 then 0 else BackoffSum(n - 1) + Backoff(n - 1)
  }

  predicate AllFailed(log: seq<Dial>, i: nat, j: nat)
    requires i <= j <= |log|
  {
    forall k :: i <= k < j ==> log[k].failed
  }

  /** Status queries of enabled families answer connected or disconnected, and
      the IPv6 one, whose failure the loop ignores, answers at all. */
  predicate DefiniteAnswers(c: Config, e: Event)
  {
    e.ReadSignal? ==>
      && (c.v4 && e.a.query4.Some? ==> Definite(e.a.query4.value))
      && (c.v6 && !V6FollowsV4(c) ==> e.a.query6.Some? && Definite(e.a.query6.value))
  }

  /** The reports that bring the allowed time forward: that the modem detached, and
      a change of the call list while a family is up. */
  predicate Shortens(s: State, e: Event)
  {
    || (e.NetworkChanged? && e.attach != 1 && e.at < s.allowAt)
    || (e.CallListChanged? && (s.v4 == Connected || s.v6 == Connected) && e.at + 1000 < s.allowAt)
  }

  /** Exactly when an event other than the reading of a START does so. */
  lemma {:induction false} ShortensIff(c: Config, s: State, e: Event)
    requires Enabled(s, e) && !(e.ReadSignal? && s.queue[0] == Start)
    ensures Step(c, s, e).allowAt < s.allowAt <==> Shortens(s, e)
  {
    if e.ReadSignal? && s.queue[0] == Check {
      CheckKeepsPause(c, Taken(s, e.a), e.a);
    }
  }

  /** While a family is down nothing brings the allowed time forward. */
  predicate Undisturbed(c: Config, s: State, e: Event)
  {
    Down(c, s) ==> !Shortens(s, e)
  }

  predicate Steady(c: Config, s: State, evs: seq<Event>)
    requires Possible(c, s, evs)
    decreases |evs|
  {
    evs != [] ==>
      var n := |evs| - 1;
      Steady(c, s, evs[..n]) &&
      DefiniteAnswers(c, evs[n]) && Undisturbed(c, After(c, s, evs[..n]), evs[n])
  }

  /** From the first CHECK on, the enabled families' statuses are definite. */
  predicate Settled(c: Config, s: State)
  {
    || (s.queue != [] && s.queue[0] == Check)
    || !s.running
    || ((c.v4 ==> Definite(s.v4)) && (c.v6 ==> Definite(s.v6)))
  }

  lemma StepKeepsSettled(c: Config, s: State, e: Event)
    requires Enabled(s, e) && Settled(c, s) && DefiniteAnswers(c, e)
    ensures Settled(c, Step(c, s, e))
  {
    if e.ReadSignal? {
      var t := Taken(s, e.a);
      match s.queue[0]
      case Start =>
        var d := Dial4(c, t, e.a);
        assert c.v4 ==> Definite(d.v4);
        var d6 := Dial6(c, d, e.a);
        assert c.v6 ==> Definite(d6.v6);
      case Check =>
        var k := Check4(c, Registered(t, e.a), e.a);
        assert Definite(k.v4);
        assert Definite(Check6(c, k, e.a).v6);
      case Stop =>
    }
  }

  /** What ties the log to the state: every streak of failures that reaches the
      end of the log is counted, and has pushed the allowed time far enough. */
  predicate StreakCounted(s: State, log: seq<Dial>, i: nat)
    requires i < |log|
  {
    s.fails >= |log| - i && s.allowAt >= log[i].at + 1000 * BackoffSum(|log| - i)
  }

  predicate BackoffKept(c: Config, s: State, log: seq<Dial>)
  {
    && (log != [] && log[|log| - 1].failed && s.running ==> Down(c, s))
    && (forall i: nat | i < |log| && AllFailed(log, i, |log|) :: StreakCounted(s, log, i))
  }

  lemma {:induction false} BackoffGrows(m: nat, n: nat)
    requires m <= n
    ensures Backoff(m) <= Backoff(n)
  {
  }

  /** A failed dial counts itself and doubles up to the longest pause. */
  lemma FailedDialCounts(c: Config, s: State, log: seq<Dial>, e: Event)
    requires Enabled(s, e) && Dials(c, s, e) && BackoffKept(c, s, log)
    requires var t := Step(c, s, e);
             t.fails == s.fails + 1 && t.allowAt == Backoff(s.fails) * 1000 + e.a.later && Down(c, t)
    ensures BackoffKept(c, Step(c, s, e), log + [Dial(e.a.now, true)])
  {
    var log' := log + [Dial(e.a.now, true)];
    forall i: nat | i < |log'| && AllFailed(log', i, |log'|)
      ensures StreakCounted(Step(c, s, e), log', i)
    {
      if i < |log| {
        assert AllFailed(log, i, |log|) by {
          forall k | i <= k < |log| ensures log[k].failed { assert log'[k].failed; }
        }
        assert StreakCounted(s, log, i);
        BackoffGrows(|log| - i, s.fails);
        assert BackoffSum(|log'| - i) == BackoffSum(|log| - i) + Backoff(|log| - i);
      } else {
        BackoffGrows(0, s.fails);
        assert BackoffSum(1) == BackoffSum(0) + Backoff(0);
      }
    }
  }

  lemma {:induction false} DialStep(c: Config, s: State, log: seq<Dial>, e: Event)
    requires Enabled(s, e) && Settled(c, s) && BackoffKept(c, s, log) && Dials(c, s, e)
    ensures BackoffKept(c, Step(c, s, e), log + [Dial(e.a.now, !AllUp(c, Step(c, s, e)))])
  {
    var d := Dial6(c, Dial4(c, Taken(s, e.a), e.a), e.a);
    assert Step(c, s, e) == AfterDial(c, d, e.a);
    StepKeepsSettledDial(c, Taken(s, e.a), e.a);
    if AllUp(c, d) {
      GoodDialEndsStreaks(c, Step(c, s, e), log, e.a.now);
    } else {
      DialFails(c, d, e.a);
      FailedDialCounts(c, s, log, e);
    }
  }

  lemma {:induction false} GoodDialEndsStreaks(c: Config, s: State, log: seq<Dial>, now: nat)
    ensures BackoffKept(c, s, log + [Dial(now, false)])
  {
    var log' := log + [Dial(now, false)];
    forall i: nat | i < |log'|
      ensures !AllFailed(log', i, |log'|)
    {
      assert !log'[|log|].failed;
    }
  }

  lemma {:induction false} DialFails(c: Config, d: State, a: Answers)
    requires (c.v4 ==> Definite(d.v4)) && (c.v6 ==> Definite(d.v6)) && !AllUp(c, d)
    ensures var t := AfterDial(c, d, a);
            Down(c, t) && !AllUp(c, t) && t.fails == d.fails + 1 && t.allowAt == Backoff(d.fails) * 1000 + a.later
  {
  }

  lemma StepKeepsSettledDial(c: Config, s: State, a: Answers)
    requires (c.v4 ==> Definite(s.v4)) && (c.v6 ==> Definite(s.v6))
    ensures var d := Dial6(c, Dial4(c, s, a), a); (c.v4 ==> Definite(d.v4)) && (c.v6 ==> Definite(d.v6))
  {
    var d := Dial4(c, s, a);
    assert c.v4 ==> Definite(d.v4);
  }

  /** Any other event leaves a streak as it is. */
  lemma OtherStep(c: Config, s: State, log: seq<Dial>, e: Event)
    requires Enabled(s, e) && Settled(c, s) && BackoffKept(c, s, log)
    requires !Dials(c, s, e) && Undisturbed(c, s, e)
    ensures BackoffKept(c, Step(c, s, e), log)
  {
    if log != [] && log[|log| - 1].failed {
      UndisturbedKeepsPause(c, s, e);
    } else {
      forall i: nat | i < |log|
        ensures !AllFailed(log, i, |log|)
      {
        assert !log[|log| - 1].failed;
      }
    }
  }

  lemma UndisturbedKeepsPause(c: Config, s: State, e: Event)
    requires Enabled(s, e) && Down(c, s) && !Dials(c, s, e) && Undisturbed(c, s, e)
    ensures var t := Step(c, s, e); t.allowAt >= s.allowAt && t.fails == s.fails && (t.running ==> Down(c, t))
  {
    if e.ReadSignal? && s.queue[0] == Check {
      var r := Registered(Taken(s, e.a), e.a);
      var k := Check4(c, r, e.a);
      assert k.v4 == Disconnected || !(c.v4 && s.v4 == Disconnected);
      var k6 := Check6(c, k, e.a);
      assert Down(c, k6);
      CheckKeepsPause(c, Taken(s, e.a), e.a);
    }
  }

  lemma {:induction false} RunKeepsBackoff(c: Config, s: State, evs: seq<Event>)
    requires Init(c, s) && Possible(c, s, evs) && Steady(c, s, evs)
    ensures Settled(c, After(c, s, evs))
    ensures BackoffKept(c, After(c, s, evs), DialLog(c, s, evs))
    decreases |evs|
  {
    if evs != [] {
      var n := |evs| - 1;
      RunKeepsBackoff(c, s, evs[..n]);
      var t := After(c, s, evs[..n]);
      var log := DialLog(c, s, evs[..n]);
      StepKeepsSettled(c, t, evs[n]);
      if Dials(c, t, evs[n]) {
        DialStep(c, t, log, evs[n]);
      } else {
        OtherStep(c, t, log, evs[n]);
      }
    }
  }

  /** The back-off bound for every configuration: in a steady run, the dial after
      the failed dials i..j-1 is at least BackoffSum(j - i) seconds after dial i. */
  lemma {:induction false} BackoffBound(c: Config, s: State, evs: seq<Event>, i: nat, j: nat)
    requires Init(c, s) && Possible(c, s, evs) && Steady(c, s, evs)
    requires i < j < |DialLog(c, s, evs)| && AllFailed(DialLog(c, s, evs), i, j)
    ensures DialLog(c, s, evs)[j].at >= DialLog(c, s, evs)[i].at + 1000 * BackoffSum(j - i)
  {
    var log := DialLog(c, s, evs);
    var before, e := DialAt(c, s, evs, log, j);
    RunKeepsBackoff(c, s, before);
    DialWaits(c, After(c, s, before), log, e, i, j);
  }

  /** A dial behind a streak waits for the time the streak has set. */
  lemma {:induction false} DialWaits(c: Config, s: State, log: seq<Dial>, e: Event, i: nat, j: nat)
    requires i < j < |log| && BackoffKept(c, s, log[..j]) && Dials(c, s, e) && log[j].at == e.a.now
    requires AllFailed(log, i, j)
    ensures log[j].at >= log[i].at + 1000 * BackoffSum(j - i)
  {
    var earlier := log[..j];
    FailedBefore(log, earlier, i, j);
    assert StreakCounted(s, earlier, i);
    assert earlier[i] == log[i];
  }

  /** The run up to the dial at `j`, and the event that made it. */
  lemma {:induction false} DialAt(c: Config, s: State, evs: seq<Event>, log: seq<Dial>, j: nat)
    returns (before: seq<Event>, e: Event)
    requires Possible(c, s, evs) && Steady(c, s, evs) && log == DialLog(c, s, evs) && j < |log|
    ensures Possible(c, s, before) && Steady(c, s, before)
    ensures DialLog(c, s, before) == log[..j]
    ensures Dials(c, After(c, s, before), e) && log[j].at == e.a.now
    decreases |evs|
  {
    var n := |evs| - 1;
    var earlier := DialLog(c, s, evs[..n]);
    LogGrows(c, s, evs);
    if j < |earlier| {
      before, e := DialAt(c, s, evs[..n], earlier, j);
    } else {
      before, e := evs[..n], evs[n];
    }
  }

  /** An event adds at most one dial to the log. */
  lemma {:induction false} LogGrows(c: Config, s: State, evs: seq<Event>)
    requires Possible(c, s, evs) && evs != []
    ensures var n := |evs| - 1;
            var t, log, earlier := After(c, s, evs[..n]), DialLog(c, s, evs), DialLog(c, s, evs[..n]);
            && |earlier| <= |log| && earlier == log[..|earlier|] && |log| <= |earlier| + 1
            && (|log| > |earlier| ==> Dials(c, t, evs[n]) && log[|earlier|].at == evs[n].a.now)
  {
  }

  lemma {:induction false} FailedBefore(log: seq<Dial>, earlier: seq<Dial>, i: nat, j: nat)
    requires earlier <= log && i <= j <= |earlier| && AllFailed(log, i, j)
    ensures AllFailed(earlier, i, j)
  {
    forall k | i <= k < j
      ensures earlier[k].failed
    {
      assert log[k].failed;
    }
  }

  // ----- IPv4 only -----------------------------------------------------------

  /** The assumptions of the IPv4-only statement: IPv4 queries are definite and no
      detach is reported. */
  predicate Attached(evs: seq<Event>)
  {
    forall k :: 0 <= k < |evs| ==>
      && (evs[k].ReadSignal? && evs[k].a.query4.Some? ==> Definite(evs[k].a.query4.value))
      && (evs[k].NetworkChanged? ==> evs[k].attach == 1)
  }

  lemma {:induction false} V4RunIsSteady(c: Config, s: State, evs: seq<Event>)
    requires Init(c, s) && c.v4 && !c.v6 && Possible(c, s, evs) && Attached(evs)
    ensures Steady(c, s, evs)
    decreases |evs|
  {
    if evs != [] {
      var n := |evs| - 1;
      assert Attached(evs[..n]) by {
        forall k | 0 <= k < n
          ensures (evs[..n][k].ReadSignal? && evs[..n][k].a.query4.Some? ==> Definite(evs[..n][k].a.query4.value))
               && (evs[..n][k].NetworkChanged? ==> evs[..n][k].attach == 1)
        {
          assert evs[..n][k] == evs[k];
        }
      }
      V4RunIsSteady(c, s, evs[..n]);
      LinkAgreement(c, s, evs[..n]);
      assert After(c, s, evs[..n]).v6 != Connected;
      assert evs[n].NetworkChanged? ==> evs[n].attach == 1;
    }
  }

  lemma BackoffBoundV4(c: Config, s: State, evs: seq<Event>, i: nat, j: nat)
    requires Init(c, s) && c.v4 && !c.v6 && Possible(c, s, evs) && Attached(evs)
    requires i < j < |DialLog(c, s, evs)| && AllFailed(DialLog(c, s, evs), i, j)
    ensures DialLog(c, s, evs)[j].at >= DialLog(c, s, evs)[i].at + 1000 * BackoffSum(j - i)
  {
    V4RunIsSteady(c, s, evs);
    BackoffBound(c, s, evs, i, j);
  }

  /** From the fifth failure on every further one costs a minute. */
  lemma {:induction false} BackoffSumValue(n: nat)
    ensures n >= 4 ==> BackoffSum(n) == 75 + 60 * (n - 4)
    ensures BackoffSum(1) == 5 && BackoffSum(2) == 15 && BackoffSum(3) == 35
  {
    assert BackoffSum(1) == 5 && BackoffSum(2) == 15 && BackoffSum(3) == 35 && BackoffSum(4) == 75;
    if n > 4 {
      BackoffSumValue(n - 1);
    }
  }

  // ----- why the assumptions are needed --------------------------------------

  /** The fields the runs below depend on. */
  predicate At(s: State, queue: seq<Signal>, v4: Status, v6: Status, allowAt: nat, clock: nat, fails: nat)
  {
    && s.running && s.attach == 1 && s.queue == queue && s.v4 == v4 && s.v6 == v6
    && s.allowAt == allowAt && s.clock == clock && s.fails == fails
  }

  function QuietAt(now: nat): Event
  {
    ReadSignal(QUIET.(now := now, later := now))
  }

  /** `e` prolongs a run that has led to `t` with dials `log`. */
  lemma {:induction false} Prolong(c: Config, s: State, evs: seq<Event>, t: State, log: seq<Dial>, e: Event)
    requires Possible(c, s, evs) && t == After(c, s, evs) && log == DialLog(c, s, evs) && Enabled(t, e)
    ensures Possible(c, s, evs + [e]) && After(c, s, evs + [e]) == Step(c, t, e)
    ensures DialLog(c, s, evs + [e]) ==
            if Dials(c, t, e) then log + [Dial(e.a.now, !AllUp(c, Step(c, t, e)))] else log
  {
    assert (evs + [e])[..|evs|] == evs;
  }

  lemma {:induction false} QuietCheck(c: Config, s: State)
    requires c.v4 && c.ops == Qmi && Init(c, s) && s.clock == 0 && s.attach == 1
    ensures Enabled(s, QuietAt(0)) && !Dials(c, s, QuietAt(0))
    ensures At(Step(c, s, QuietAt(0)), [Start], Disconnected, if c.v6 then UNKNOWN else Disconnected, 0, 0, 0)
  {
    var a := QuietAt(0).a;
    var t := Taken(s, a);
    var k := Check4(c, Registered(t, a), a);
    assert k == t.(v4 := Disconnected, ip4 := k.ip4);
  }

  lemma {:induction false} QuietDial(c: Config, s: State, v6: Status, allowAt: nat, now: nat, fails: nat)
    requires c.v4 && c.ops == Qmi && !c.credentials && v6 != Connected
    requires At(s, [Start], Disconnected, v6, allowAt, now, fails) && allowAt <= now
    ensures Enabled(s, QuietAt(now)) && Dials(c, s, QuietAt(now)) && !AllUp(c, Step(c, s, QuietAt(now)))
    ensures At(Step(c, s, QuietAt(now)), [], Disconnected, v6, Backoff(fails) * 1000 + now, now, fails + 1)
  {
    var a := QuietAt(now).a;
    var d := Dial4(c, Taken(s, a), a);
    assert d.v4 == Disconnected;
    assert Dial6(c, d, a) == d;
  }

  /** A detach report between two dials lifts the pause. */
  lemma {:induction false} DetachLiftsPause(c: Config, s: State) returns (evs: seq<Event>)
    requires c == Config(true, false, Qmi, false)
    requires Init(c, s) && s.clock == 0 && s.attach == 1
    ensures Possible(c, s, evs)
    ensures var log := DialLog(c, s, evs);
            |log| == 2 && log[0].failed && log[1].at == log[0].at
  {
    var t, log := s, [];
    evs := [];
    QuietCheck(c, t);
    Prolong(c, s, evs, t, log, QuietAt(0));
    evs, t := evs + [QuietAt(0)], Step(c, t, QuietAt(0));
    QuietDial(c, t, Disconnected, 0, 0, 0);
    Prolong(c, s, evs, t, log, QuietAt(0));
    evs, t, log := evs + [QuietAt(0)], Step(c, t, QuietAt(0)), [Dial(0, true)];
    var detach, attach := NetworkChanged(0, 0), NetworkChanged(1, 0);
    Reattach(c, t);
    Prolong(c, s, evs, t, log, detach);
    evs, t := evs + [detach], Step(c, t, detach);
    Prolong(c, s, evs, t, log, attach);
    evs, t := evs + [attach], Step(c, t, attach);
    QuietDial(c, t, Disconnected, 0, 0, 1);
    Prolong(c, s, evs, t, log, QuietAt(0));
    evs := evs + [QuietAt(0)];
  }

  lemma {:induction false} Reattach(c: Config, s: State)
    requires c.v4 && At(s, [], Disconnected, Disconnected, 5000, 0, 1)
    ensures Enabled(s, NetworkChanged(0, 0)) && Enabled(Step(c, s, NetworkChanged(0, 0)), NetworkChanged(1, 0))
    ensures At(Step(c, Step(c, s, NetworkChanged(0, 0)), NetworkChanged(1, 0)), [Start], Disconnected, Disconnected, 0, 0, 1)
  {
    var t := Step(c, s, NetworkChanged(0, 0));
    assert t == s.(attach := 0, clock := 0, allowAt := 0);
  }

  // With IPv4 up and IPv6 down.

  const DOWN: Answers := QUIET.(query4 := Some(Disconnected), query6 := Some(Disconnected))
  const BOTH_DOWN: Event := ReadSignal(DOWN)
  const V4_UP: Event := ReadSignal(DOWN.(setup4 := 0, dialIp4 := IpAnswer(true, 1)))
  const STILL_UP: Event := ReadSignal(DOWN.(query4 := Some(Connected), verifyIp4 := IpAnswer(true, 1)))
  const NEXT_DIAL: Event := ReadSignal(DOWN.(now := 1000, later := 1000))

  lemma {:induction false} BothDown(c: Config, s: State)
    requires c == Config(true, true, Qmi, false) && Init(c, s) && s.clock == 0 && s.attach == 1
    ensures Enabled(s, BOTH_DOWN) && !Dials(c, s, BOTH_DOWN)
    ensures At(Step(c, s, BOTH_DOWN), [Start], Disconnected, Disconnected, 0, 0, 0)
  {
    var t := Taken(s, DOWN);
    var k := Check4(c, Registered(t, DOWN), DOWN);
    assert k == t.(v4 := Disconnected, ip4 := k.ip4);
    assert Check6(c, k, DOWN) == k.(v6 := Disconnected);
  }

  lemma {:induction false} V4Dialed(c: Config, s: State)
    requires c == Config(true, true, Qmi, false) && At(s, [Start], Disconnected, Disconnected, 0, 0, 0)
    ensures Enabled(s, V4_UP) && Dials(c, s, V4_UP) && !AllUp(c, Step(c, s, V4_UP))
    ensures At(Step(c, s, V4_UP), [], Connected, Disconnected, 5000, 0, 1) && Step(c, s, V4_UP).ip4 == 1
  {
    var d := Dial4(c, Taken(s, V4_UP.a), V4_UP.a);
    assert d.v4 == Connected && d.ip4 == 1;
    assert Dial6(c, d, V4_UP.a) == d;
  }

  lemma {:induction false} V4StillUp(c: Config, s: State)
    requires c == Config(true, true, Qmi, false) && At(s, [Check], Connected, Disconnected, 1000, 0, 1) && s.ip4 == 1
    ensures Enabled(s, STILL_UP) && !Dials(c, s, STILL_UP)
    ensures At(Step(c, s, STILL_UP), [Start], Connected, Disconnected, 1000, 0, 1)
  {
    var t := Taken(s, STILL_UP.a);
    var k := Check4(c, Registered(t, STILL_UP.a), STILL_UP.a);
    assert k == t;
    assert Check6(c, k, STILL_UP.a) == k;
  }

  /** A call-list report while IPv4 is up and IPv6 down cuts the pause after the
      failed IPv6 dial from five seconds to one. */
  lemma {:induction false} CallListCutsPause(c: Config, s: State) returns (evs: seq<Event>)
    requires c == Config(true, true, Qmi, false)
    requires Init(c, s) && s.clock == 0 && s.attach == 1
    ensures Possible(c, s, evs)
    ensures evs == [BOTH_DOWN, V4_UP, CallListChanged(0), STILL_UP, NEXT_DIAL]
    ensures var log := DialLog(c, s, evs);
            |log| == 2 && log[0].failed && log[1].at < log[0].at + 1000 * BackoffSum(1)
  {
    var t, log := s, [];
    evs := [];
    BothDown(c, t);
    Prolong(c, s, evs, t, log, BOTH_DOWN);
    evs, t := evs + [BOTH_DOWN], Step(c, t, BOTH_DOWN);
    V4Dialed(c, t);
    Prolong(c, s, evs, t, log, V4_UP);
    evs, t, log := evs + [V4_UP], Step(c, t, V4_UP), [Dial(0, true)];
    Prolong(c, s, evs, t, log, CallListChanged(0));
    evs, t := evs + [CallListChanged(0)], Step(c, t, CallListChanged(0));
    V4StillUp(c, t);
    Prolong(c, s, evs, t, log, STILL_UP);
    evs, t := evs + [STILL_UP], Step(c, t, STILL_UP);
    Prolong(c, s, evs, t, log, NEXT_DIAL);
    evs := evs + [NEXT_DIAL];
    assert BackoffSum(1) == BackoffSum(0) + 5;
  }

  // After an answer that is neither connected nor disconnected.

  const ODD: Event := ReadSignal(QUIET.(query4 := Some(Other(3))))

  lemma {:induction false} OddCheck(c: Config, s: State)
    requires c == Config(true, false, Qmi, false) && Init(c, s) && s.clock == 0 && s.attach == 1
    ensures Enabled(s, ODD) && !Dials(c, s, ODD)
    ensures At(Step(c, s, ODD), [], Other(3), Disconnected, 0, 0, 0)
  {
    var t := Taken(s, ODD.a);
    var k := Check4(c, Registered(t, ODD.a), ODD.a);
    assert k == t.(v4 := Other(3), ip4 := k.ip4);
  }

  lemma {:induction false} OddDial(c: Config, s: State)
    requires c == Config(true, false, Qmi, false) && At(s, [Start], Other(3), Disconnected, 0, 0, 0)
    ensures Enabled(s, QuietAt(0)) && Dials(c, s, QuietAt(0)) && !AllUp(c, Step(c, s, QuietAt(0)))
    ensures At(Step(c, s, QuietAt(0)), [], Other(3), Disconnected, 0, 0, 0)
  {
    var a := QuietAt(0).a;
    var d := Dial4(c, Taken(s, a), a);
    assert d.v4 == Other(3);
    assert Dial6(c, d, a) == d;
  }

  /** A failed dial after such an answer counts as nothing, and the next one may
      come at once, without any report that moves the allowed time. */
  lemma {:induction false} IndefiniteSkipsPause(c: Config, s: State) returns (evs: seq<Event>)
    requires c == Config(true, false, Qmi, false)
    requires Init(c, s) && s.clock == 0 && s.attach == 1
    ensures Possible(c, s, evs)
    ensures evs == [ODD, LoopbackChanged(1), QuietAt(0), LoopbackChanged(1), QuietAt(0)]
    ensures var log := DialLog(c, s, evs);
            |log| == 2 && log[0].failed && log[1].at == log[0].at
  {
    var t, log, again := s, [], LoopbackChanged(1);
    evs := [];
    OddCheck(c, t);
    Prolong(c, s, evs, t, log, ODD);
    evs, t := evs + [ODD], Step(c, t, ODD);
    Prolong(c, s, evs, t, log, again);
    evs, t := evs + [again], Step(c, t, again);
    OddDial(c, t);
    Prolong(c, s, evs, t, log, QuietAt(0));
    evs, t, log := evs + [QuietAt(0)], Step(c, t, QuietAt(0)), [Dial(0, true)];
    Prolong(c, s, evs, t, log, again);
    evs, t := evs + [again], Step(c, t, again);
    OddDial(c, t);
    Prolong(c, s, evs, t, log, QuietAt(0));
    evs := evs + [QuietAt(0)];
  }
}
