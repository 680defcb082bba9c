/** The dial loop as it runs: an object whose fields are updated in place, event
    by event.  Every method is tied to its transition in DialModel. */
module Dialing {
  import opened Common
  import opened DialModel
  import opened DialRetry
  import opened DialBackoff
  import opened DialOutcome

  /** The state in which the loop is entered. */
  function Entered(now: nat, attached: nat, initialV4: Status, loopbackState: nat, authMode: int): State
  {
    State(true, now, attached, initialV4, UNKNOWN, 0, now, [Check], 0, loopbackState, authMode, 0, -1, false)
  }

  class Dialer {
    const c: Config
    var running: bool
    var clock: nat
    var attach: nat
    var v4: Status
    var v6: Status
    var fails: nat
    var allowAt: nat
    var queue: seq<Signal>
    var alarm: nat
    var loopback: nat
    var auth: int
    var ip4: nat
    var link: int
    var dhcp: bool

    function Snapshot(): State
      reads this
    {
      State(running, clock, attach, v4, v6, fails, allowAt, queue, alarm, loopback, auth, ip4, link, dhcp)
    }

    constructor (config: Config, now: nat, attached: nat, initialV4: Status, loopbackState: nat, authMode: int)
      requires config.v4 || config.v6
      requires (config.ops == Atc && config.v4) || initialV4 == UNKNOWN
      ensures c == config && Init(c, Snapshot())
      ensures Snapshot() == Entered(now, attached, initialV4, loopbackState, authMode)
    {
      c := config;
      running, clock, attach := true, now, attached;
      v4, v6, fails, allowAt := initialV4, UNKNOWN, 0, now;
      queue, alarm, loopback, auth := [Check], 0, loopbackState, authMode;
      ip4, link, dhcp := 0, -1, false;
    }

    method SendSignal(signal: Signal)
      modifies this
      ensures Snapshot() == Send(old(Snapshot()), signal)
    {
      queue := queue + [signal];
    }

    method UsbnetLinkChange(newLink: int)
      modifies this
      ensures Snapshot() == LinkChange(old(Snapshot()), newLink)
    {
      if link == newLink { return; }
      link := newLink;
      if !HasV4(newLink) { ip4 := 0; }
      dhcp := newLink != 0;
    }

    method SetupV4(a: Answers)
      modifies this
      ensures Snapshot() == Dial4(c, old(Snapshot()), a)
    {
      if c.v4 && v4 != Connected {
        var qmierr := a.setup4;
        if qmierr > 0 && c.credentials {
          var oldAuth := auth;
          auth := if auth == 1 then 2 else 1;
          qmierr := a.retry4;
          if qmierr != 0 { auth := oldAuth; }
        }
        if qmierr == 0 {
          ip4 := a.dialIp4.address;
          if a.dialIp4.ok { v4 := Connected; }
        }
      }
    }

    method SetupV6(a: Answers)
      modifies this
      ensures Snapshot() == Dial6(c, old(Snapshot()), a)
    {
      if c.v6 && v6 != Connected {
        if c.v4 && c.ops != Qmi {
          v6 := v4;
        } else if a.setup6 == 0 {
          if a.dialIp6Ok { v6 := Connected; }
        }
      }
    }

    method HandleStart(a: Answers)
      modifies this
      ensures Snapshot() == OnStart(c, old(Snapshot()), a)
    {
      if attach != 1 && loopback == 0 { return; }
      if allowAt > a.now {
        alarm := AlarmSeconds(allowAt, a.later);
        return;
      }
      SetupV4(a);
      SetupV6(a);
      if (c.v4 && v4 == Disconnected) || (c.v6 && v6 == Disconnected) {
        var pause := Backoff(fails);
        fails := fails + 1;
        alarm := pause;
        allowAt := pause * 1000 + a.later;
      } else if v4 == Connected || v6 == Connected {
        fails := 0;
        allowAt := a.later;
      }
    }

    method CheckV4(a: Answers)
      modifies this
      ensures Snapshot() == Check4(c, old(Snapshot()), a)
    {
      if c.v4 && v4 != Disconnected && a.query4.Some? {
        v4 := a.query4.value;
        if v4 == Connected && ip4 == 0 {
          ip4 := a.freshIp4.address;
          if !a.freshIp4.ok { v4 := Disconnected; }
        }
        if v4 == Connected {
          var (same, ip) := SameAddress(c, Snapshot(), a);
          ip4 := ip;
          if !same { v4 := Disconnected; }
        }
      } else {
        v4 := Disconnected;
      }
    }

    method CheckV6(a: Answers)
      modifies this
      ensures Snapshot() == Check6(c, old(Snapshot()), a)
    {
      if c.v6 && v6 != Disconnected {
        if c.v4 && c.ops != Qmi {
          v6 := v4;
        } else if a.query6.Some? {
          v6 := a.query6.value;
        }
      } else {
        v6 := Disconnected;
      }
    }

    method CheckLink()
      modifies this
      ensures Snapshot() == UpdateLink(old(Snapshot()))
    {
      if v4 == Disconnected && v6 == Disconnected {
        UsbnetLinkChange(0);
      } else if v4 == Connected || v6 == Connected {
        var newLink := 0;
        if v4 == Connected { newLink := newLink + LINK_V4; }
        if v6 == Connected { newLink := newLink + LINK_V6; }
        UsbnetLinkChange(newLink);
      }
    }

    method HandleCheck(a: Answers)
      modifies this
      ensures Snapshot() == OnCheck(c, old(Snapshot()), a)
    {
      if attach != 1 { attach := a.attach; }
      CheckV4(a);
      CheckV6(a);
      CheckLink();
      if (c.v4 && v4 == Disconnected) || (c.v6 && v6 == Disconnected) {
        SendSignal(Start);
      }
    }

    method LeaveLoop()
      modifies this
      ensures Snapshot() == Leave(old(Snapshot()))
    {
      UsbnetLinkChange(0);
      running := false;
    }

    method HandleSignal(a: Answers)
      requires queue != []
      modifies this
      ensures Snapshot() == OnSignal(c, old(Snapshot()), a)
    {
      var signo := queue[0];
      queue, alarm, clock := queue[1..], 0, a.later;
      match signo
      case Start => HandleStart(a);
      case Check => HandleCheck(a);
      case Stop => LeaveLoop();
    }

    method HandleNetworkChanged(attached: nat, at: nat)
      modifies this
      ensures Snapshot() == OnNetworkChanged(c, old(Snapshot()), attached, at)
    {
      attach, clock := attached, at;
      if attach == 1 {
        if (c.v4 && v4 == Disconnected) || (c.v6 && v6 == Disconnected) {
          SendSignal(Start);
        }
      } else {
        allowAt := at;
      }
    }

    method HandleCallListChanged(at: nat)
      modifies this
      ensures Snapshot() == OnCallListChanged(old(Snapshot()), at)
    {
      clock := at;
      if v4 == Connected || v6 == Connected { allowAt := at + 1000; }
      SendSignal(Check);
    }

    method HandleEvent(e: Event)
      requires Enabled(Snapshot(), e)
      modifies this
      ensures Snapshot() == Step(c, old(Snapshot()), e)
    {
      match e
      case ReadSignal(a) => HandleSignal(a);
      case PollTimeout => SendSignal(Check);
      case AlarmFires => alarm := 0; SendSignal(Start);
      case StopRequested => SendSignal(Stop);
      case NetworkChanged(attached, at) => HandleNetworkChanged(attached, at);
      case CallListChanged(at) => HandleCallListChanged(at);
      case LoopbackChanged(state) =>
        loopback := state;
        if state != 0 { SendSignal(Start); }
      case Quit => LeaveLoop();
    }

    /** The event loop: it follows the model over any possible run. */
    method Loop(evs: seq<Event>)
      requires Possible(c, Snapshot(), evs)
      modifies this
      ensures Snapshot() == After(c, old(Snapshot()), evs)
    {
      PrefixPossible(c, Snapshot(), evs, 0);
      for i := 0 to |evs|
        invariant Possible(c, old(Snapshot()), evs[..i])
        invariant Snapshot() == After(c, old(Snapshot()), evs[..i])
      {
        PrefixPossible(c, old(Snapshot()), evs, i + 1);
        assert evs[..i + 1][..i] == evs[..i];
        HandleEvent(evs[i]);
      }
      assert evs[..|evs|] == evs;
    }
  }

  /** What every run promises about the object's own fields: link mask and DHCP
      client follow the statuses, the next dial is at most a minute away, streaks of
      failed dials are counted and have pushed it back, a retry is pending unless the one guard was
      met, and in any case a family that is down is looked at again. */
  method Supervise(config: Config, now: nat, attached: nat, initialV4: Status, loopback: nat, auth: int, evs: seq<Event>)
    returns (d: Dialer)
    requires config.v4 || config.v6
    requires (config.ops == Atc && config.v4) || initialV4 == UNKNOWN
    requires Possible(config, Entered(now, attached, initialV4, loopback, auth), evs)
    ensures d.c == config && LinkConsistent(config, d.Snapshot()) && PauseBounded(d.Snapshot())
    ensures var s := Entered(now, attached, initialV4, loopback, auth);
            && (NeverLoses(config, s, evs) && d.running ==> RetryPending(config, d.Snapshot()))
            && (Steady(config, s, evs) ==>
                  BackoffKept(config, d.Snapshot(), DialLog(config, s, evs)) && d.fails == Streak(DialLog(config, s, evs)))
    ensures d.running ==>
              Start in d.queue || Check in d.queue || Stop in d.queue || PollHelps(config, d.Snapshot())
  {
    d := new Dialer(config, now, attached, initialV4, loopback, auth);
    ghost var s := d.Snapshot();
    d.Loop(evs);
    LinkAgreement(config, s, evs);
    PauseIsBounded(config, s, evs);
    NoLostRetry(config, s, evs);
    if d.running {
      AlwaysLookedAtAgain(config, d.Snapshot());
    }
    if Steady(config, s, evs) {
      RunKeepsBackoff(config, s, evs);
      FailsAreTheStreak(config, s, evs);
    }
  }

  lemma {:induction false} PrefixPossible(c: Config, s: State, evs: seq<Event>, k: nat)
    requires k <= |evs| && Possible(c, s, evs)
    ensures Possible(c, s, evs[..k])
    decreases |evs|
  {
    if k == |evs| {
      assert evs[..k] == evs;
    } else {
      var n := |evs| - 1;
      PrefixPossible(c, s, evs[..n], k);
      assert evs[..n][..k] == evs[..k];
    }
  }
}
