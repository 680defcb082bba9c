/** Data-call handles: which handle a stop-network request may carry. */
module DataCall {

  datatype Family = V4 | V6

  /** What was exchanged with the modem, per IP family. */
  datatype Entry =
    | Started(family: Family, handle: nat)
    | StartFailed(family: Family)
    | Queried(family: Family, disconnected: bool)
    | QueryFailed(family: Family)
    | StopSent(family: Family, handle: nat, ok: bool)

  /** The entry settles what handle the family has: a start gives one, a
      successful stop or a disconnected query takes it away. */
  predicate Settles(e: Entry, f: Family)
  {
    || (e.Started? && e.family == f)
    || (e.Queried? && e.family == f && e.disconnected)
    || (e.StopSent? && e.family == f && e.ok)
  }

  /** The handle in force after a history; 0 if there is none. */
  function Live(log: seq<Entry>, f: Family): nat
  {
    if log == [] then 0
    else
      var n := |log| - 1;
      if !Settles(log[n], f) then Live(log[..n], f)
      else if log[n].Started? then log[n].handle else 0
  }

  /** `h` is the handle of the family's most recent successful start, and nothing
      in front of position k has stopped it or found it disconnected since. */
  ghost predicate MostRecentStart(log: seq<Entry>, k: nat, f: Family, h: nat)
    requires k <= |log|
  {
    exists i :: 0 <= i < k && log[i] == Started(f, h) && forall j :: i < j < k ==> !Settles(log[j], f)
  }

  lemma {:induction false} LiveIsMostRecent(log: seq<Entry>, f: Family, h: nat)
    requires h != 0
    ensures Live(log, f) == h <==> MostRecentStart(log, |log|, f, h)
  {
    if log != [] {
      var n := |log| - 1;
      LiveIsMostRecent(log[..n], f, h);
      if Settles(log[n], f) {
        if Live(log, f) == h {
          assert log[n] == Started(f, h);
        }
      } else {
        if MostRecentStart(log[..n], n, f, h) {
          var i :| 0 <= i < n && log[..n][i] == Started(f, h) && forall j :: i < j < n ==> !Settles(log[..n][j], f);
          assert log[i] == Started(f, h);
          assert forall j :: i < j < |log| ==> !Settles(log[j], f) by {
            forall j | i < j < |log| ensures !Settles(log[j], f) {
              if j < n { assert log[..n][j] == log[j]; }
            }
          }
        }
        if MostRecentStart(log, |log|, f, h) {
          var i :| 0 <= i < |log| && log[i] == Started(f, h) && forall j :: i < j < |log| ==> !Settles(log[j], f);
          assert i != n;
          assert log[..n][i] == Started(f, h);
          assert forall j :: i < j < n ==> log[..n][j] == log[j];
        }
      }
    }
  }

  /** Every stop request carries the non-zero handle of the most recent start. */
  ghost predicate StopsAreLawful(log: seq<Entry>)
  {
    forall k :: 0 <= k < |log| && log[k].StopSent? ==>
      log[k].handle != 0 && MostRecentStart(log, k, log[k].family, log[k].handle)
  }

  lemma LawfulMore(log: seq<Entry>, e: Entry)
    requires StopsAreLawful(log)
    requires e.StopSent? ==> e.handle != 0 && e.handle == Live(log, e.family)
    ensures StopsAreLawful(log + [e])
  {
    var longer := log + [e];
    forall k | 0 <= k < |longer| && longer[k].StopSent?
      ensures longer[k].handle != 0 && MostRecentStart(longer, k, longer[k].family, longer[k].handle)
    {
      var f, h := longer[k].family, longer[k].handle;
      if k == |log| {
        LiveIsMostRecent(log, f, h);
      } else {
        assert log[k] == longer[k];
      }
      var i :| 0 <= i < k && log[i] == Started(f, h) && forall j :: i < j < k ==> !Settles(log[j], f);
      assert longer[i] == log[i] && forall j :: i < j < k ==> longer[j] == log[j];
    }
  }

  lemma LiveNext(log: seq<Entry>, e: Entry, f: Family)
    ensures Live(log + [e], f) ==
            if !Settles(e, f) then Live(log, f) else if e.Started? then e.handle else 0
  {
    assert (log + [e])[..|log|] == log;
  }

  datatype StartAnswer = NoAnswer | Refused | Accepted(handle: nat)
  datatype QueryAnswer = NoReply | Error | NoStatus | Status(status: nat, reconfigure: bool)
  datatype StopAnswer = Unanswered | Rejected | Done

  const DISCONNECTED: nat := 1

  /** The connection status a query leaves, or nothing if it failed. */
  function Reported(a: QueryAnswer): int
  {
    match a
    case NoReply => -1
    case Error => -1
    case NoStatus => DISCONNECTED
    case Status(s, reconfigure) => if reconfigure then DISCONNECTED else s
  }

  class DataCalls {
    var handle4: nat
    var handle6: nat
    ghost var log: seq<Entry>

    ghost predicate Valid()
      reads this
    {
      handle4 == Live(log, V4) && handle6 == Live(log, V6) && StopsAreLawful(log)
    }

    constructor ()
      ensures Valid() && log == []
    {
      handle4, handle6, log := 0, 0, [];
    }

    ghost method Record(e: Entry)
      requires StopsAreLawful(log) && (e.StopSent? ==> e.handle != 0 && e.handle == Live(log, e.family))
      modifies this`log
      ensures log == old(log) + [e] && StopsAreLawful(log)
      ensures forall f :: Live(log, f) == if !Settles(e, f) then Live(old(log), f) else if e.Started? then e.handle else 0
    {
      LawfulMore(log, e);
      LiveNext(log, e, V4);
      LiveNext(log, e, V6);
      log := log + [e];
    }

    /** requestSetupDataCall. */
    method Setup(f: Family, a: StartAnswer)
      requires Valid()
      modifies this
      ensures Valid()
      ensures Handle(f) == if a.Accepted? then a.handle else old(Handle(f))
      ensures forall g :: g != f ==> Handle(g) == old(Handle(g))
      ensures log == old(log) + [if a.Accepted? then Started(f, a.handle) else StartFailed(f)]
    {
      if a.Accepted? {
        if f == V4 { handle4 := a.handle; } else { handle6 := a.handle; }
        Record(Started(f, a.handle));
      } else {
        Record(StartFailed(f));
      }
    }

    /** The handle of a family. */
    function Handle(f: Family): nat
      reads this
    {
      if f == V4 then handle4 else handle6
    }

    /** requestQueryDataCall. */
    method Query(f: Family, a: QueryAnswer) returns (status: int)
      requires Valid()
      modifies this
      ensures Valid() && status == Reported(a)
      ensures a.NoReply? || a.Error? ==> status < 0 && handle4 == old(handle4) && handle6 == old(handle6)
      ensures a.NoStatus? || (a.Status? && (a.reconfigure || a.status == 1)) ==> status == 1 && Handle(f) == 0
      ensures a.Status? && !a.reconfigure ==> status == a.status
      ensures a.Status? && !a.reconfigure && a.status != 1 ==> Handle(f) == old(Handle(f))
      ensures forall g :: g != f ==> Handle(g) == old(Handle(g))
      ensures log == old(log) + [if status < 0 then QueryFailed(f) else Queried(f, status == DISCONNECTED)]
    {
      status := Reported(a);
      if status == DISCONNECTED {
        if f == V4 { handle4 := 0; } else { handle6 := 0; }
      }
      if status < 0 {
        Record(QueryFailed(f));
      } else {
        Record(Queried(f, status == DISCONNECTED));
      }
    }

    /** requestDeactivateDefaultPDP: nothing is sent when the family has no handle. */
    method Deactivate(f: Family, a: StopAnswer)
      requires Valid()
      modifies this
      ensures Valid()
      ensures Handle(f) == if a == Done then 0 else old(Handle(f))
      ensures forall g :: g != f ==> Handle(g) == old(Handle(g))
      ensures log == if old(Live(log, f)) == 0 then old(log) else old(log) + [StopSent(f, old(Live(log, f)), a.Done?)]
    {
      var handle := if f == V4 then handle4 else handle6;
      if handle == 0 {
        return;
      }
      Record(StopSent(f, handle, a.Done?));
      if a.Done? {
        if f == V4 { handle4 := 0; } else { handle6 := 0; }
      }
    }
  }

  datatype Call =
    | DoSetup(f: Family, start: StartAnswer)
    | DoQuery(f: Family, query: QueryAnswer)
    | DoDeactivate(f: Family, stop: StopAnswer)

  /** What a call exchanges with the modem after a history. */
  function Exchanged(log: seq<Entry>, call: Call): seq<Entry>
  {
    match call
    case DoSetup(f, a) => [if a.Accepted? then Started(f, a.handle) else StartFailed(f)]
    case DoQuery(f, a) => [if Reported(a) < 0 then QueryFailed(f) else Queried(f, Reported(a) == DISCONNECTED)]
    case DoDeactivate(f, a) => if Live(log, f) == 0 then [] else [StopSent(f, Live(log, f), a.Done?)]
  }

  function History(calls: seq<Call>): seq<Entry>
  {
    if calls == [] then []
    else
      var n := |calls| - 1;
      var log := History(calls[..n]);
      log + Exchanged(log, calls[n])
  }

  /** Call-handle protocol: in every sequence of calls, with any answers, each stop
      carries the handle of its family's most recent start, still in force. */
  lemma {:induction false} HistoryIsLawful(calls: seq<Call>)
    ensures StopsAreLawful(History(calls))
  {
    if calls != [] {
      var n := |calls| - 1;
      HistoryIsLawful(calls[..n]);
      var log := History(calls[..n]);
      var sent := Exchanged(log, calls[n]);
      if sent == [] {
        assert log + sent == log;
      } else {
        LawfulMore(log, sent[0]);
      }
    }
  }

  /** The call changes no handle: it got no usable answer, or asked about a call that
      is there. */
  predicate Idle(call: Call)
  {
    match call
    case DoSetup(_, a) => a.NoAnswer? || a.Refused?
    case DoQuery(_, a) => a.NoReply? || a.Error? || (a.Status? && !a.reconfigure && a.status != 1)
    case DoDeactivate(_, a) => a.Unanswered? || a.Rejected?
  }

  lemma {:induction false} HistoryNext(calls: seq<Call>, call: Call)
    ensures History(calls + [call]) == History(calls) + Exchanged(History(calls), call)
  {
    assert (calls + [call])[..|calls|] == calls;
  }

  lemma {:induction false} IdleKeepsHandle(log: seq<Entry>, call: Call, f: Family)
    requires Idle(call)
    ensures Live(log + Exchanged(log, call), f) == Live(log, f)
  {
    var sent := Exchanged(log, call);
    if sent == [] {
      assert log + sent == log;
    } else {
      LiveNext(log, sent[0], f);
    }
  }

  predicate AllIdle(calls: seq<Call>)
  {
    calls == [] || (AllIdle(calls[..|calls| - 1]) && Idle(calls[|calls| - 1]))
  }

  /** Any number of calls without a usable answer leaves the handles as they were. */
  lemma {:induction false} IdleCallsKeepHandles(calls: seq<Call>, more: seq<Call>, f: Family)
    requires AllIdle(more)
    ensures Live(History(calls + more), f) == Live(History(calls), f)
    decreases |more|
  {
    if more == [] {
      assert calls + more == calls;
    } else {
      var front, last := more[..|more| - 1], more[|more| - 1];
      IdleCallsKeepHandles(calls, front, f);
      LastSplits(calls, more);
      IdleNext(calls + more, calls + front, last, f);
    }
  }

  lemma {:induction false} LastSplits(a: seq<Call>, b: seq<Call>)
    requires b != []
    ensures a + b == a + b[..|b| - 1] + [b[|b| - 1]]
  {
  }

  lemma {:induction false} IdleNext(all: seq<Call>, calls: seq<Call>, call: Call, f: Family)
    requires all == calls + [call] && Idle(call)
    ensures Live(History(all), f) == Live(History(calls), f)
  {
    HistoryNext(calls, call);
    IdleKeepsHandle(History(calls), call, f);
  }

  /** A handle that was started is stopped, however many queries failed in between. */
  lemma {:induction false} StopReachesModem(calls: seq<Call>, f: Family, h: nat, more: seq<Call>, a: StopAnswer)
    requires h != 0 && AllIdle(more)
    ensures var log := History(calls + [DoSetup(f, Accepted(h))] + more);
            History(calls + [DoSetup(f, Accepted(h))] + more + [DoDeactivate(f, a)]) == log + [StopSent(f, h, a == Done)]
  {
    var begun := calls + [DoSetup(f, Accepted(h))];
    var all := begun + more;
    HistoryNext(calls, DoSetup(f, Accepted(h)));
    LiveNext(History(calls), Started(f, h), f);
    IdleCallsKeepHandles(begun, more, f);
    HistoryNext(all, DoDeactivate(f, a));
  }

  /** The statics follow that history. */
  method RunCalls(calls: seq<Call>) returns (handles: (nat, nat))
    ensures handles == (Live(History(calls), V4), Live(History(calls), V6))
  {
    var d := new DataCalls();
    for i := 0 to |calls|
      invariant fresh(d) && d.Valid() && d.log == History(calls[..i])
    {
      assert calls[..i + 1][..i] == calls[..i];
      match calls[i]
      case DoSetup(f, start) => d.Setup(f, start);
      case DoQuery(f, query) => var _ := d.Query(f, query);
      case DoDeactivate(f, stop) => d.Deactivate(f, stop);
    }
    assert calls[..|calls|] == calls;
    handles := (d.handle4, d.handle6);
  }
}
