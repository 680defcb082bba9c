/** What every interleaving of reader and issuer keeps. */
module AtTheorems {
  import opened Common
  import opened AtProtocol

  // ----- the pending slot ----------------------------------------------------

  /** A response is pending exactly while the issuer waits. */
  predicate SlotMatchesIssuer(c: Channel)
  {
    && (c.waiting <==> c.slot.Some?)
    && (c.sms.Some? ==> c.slot.Some?)
  }

  lemma StepKeepsSlot(c: Channel, e: Event)
    requires SlotMatchesIssuer(c) && Enabled(c, e)
    ensures SlotMatchesIssuer(Step(c, e))
    ensures c.out <= Step(c, e).out
    ensures |Step(c, e).out| > |c.out| ==>
              && |Step(c, e).out| == |c.out| + 1
              && Step(c, e).slot.None? && !Step(c, e).waiting
              && Step(c, e).out[|c.out|].err != CommandPending
  {
  }

  lemma {:induction false} RunKeepsSlot(c: Channel, evs: seq<Event>)
    requires Init(c) && Possible(c, evs)
    ensures SlotMatchesIssuer(After(c, evs))
    decreases |evs|
  {
    if evs != [] {
      var n := |evs| - 1;
      RunKeepsSlot(c, evs[..n]);
      StepKeepsSlot(After(c, evs[..n]), evs[n]);
    }
  }

  /** Every exit of a command leaves no pending response, and none ever finds
      another command's response in its way. */
  lemma {:induction false} ExitLeavesNoPending(c: Channel, evs: seq<Event>)
    requires Init(c) && Possible(c, evs) && evs != []
    ensures var before := After(c, evs[..|evs| - 1]); var after := After(c, evs);
            |after.out| > |before.out| ==>
              after.slot.None? && !after.waiting && after.out[|before.out|].err != CommandPending
  {
    var n := |evs| - 1;
    RunKeepsSlot(c, evs[..n]);
    StepKeepsSlot(After(c, evs[..n]), evs[n]);
  }

  // ----- ownership of responses ---------------------------------------------

  /** Ids of the responses handed to the caller. */
  function Handed(out: seq<Returned>): multiset<nat>
  {
    if out == [] then multiset{}
    else
      var n := |out| - 1;
      Handed(out[..n]) + if out[n].response.Some? then multiset{out[n].response.value.id} else multiset{}
  }

  /** Ids of the responses freed. */
  function Freed(freed: seq<Response>): multiset<nat>
  {
    if freed == [] then multiset{}
    else
      var n := |freed| - 1;
      Freed(freed[..n]) + multiset{freed[n].id}
  }

  function Pending(c: Channel): multiset<nat>
  {
    if c.slot.Some? then multiset{c.slot.value.id} else multiset{}
  }

  function Allocated(n: nat): multiset<nat>
  {
    if n == 0 then multiset{} else Allocated(n - 1) + multiset{n - 1}
  }

  lemma {:induction false} AllocatedOnce(n: nat, id: nat)
    ensures Allocated(n)[id] == if id < n then 1 else 0
  {
    if n > 0 {
      AllocatedOnce(n - 1, id);
    }
  }

  predicate Accounted(c: Channel)
  {
    Freed(c.freed) + Handed(c.out) + Pending(c) == Allocated(c.next)
  }

  lemma HandedOne(out: seq<Returned>, r: Returned)
    ensures Handed(out + [r]) ==
            Handed(out) + if r.response.Some? then multiset{r.response.value.id} else multiset{}
  {
    assert (out + [r])[..|out|] == out;
  }

  lemma {:induction false} FreedOne(freed: seq<Response>, r: Response)
    ensures Freed(freed + [r]) == Freed(freed) + multiset{r.id}
  {
    assert (freed + [r])[..|freed|] == freed;
  }

  lemma {:induction false} FailKeepsAccount(c: Channel, err: Error)
    requires Accounted(c)
    ensures Accounted(Fail(c, err))
  {
    HandedOne(c.out, Returned(err, None));
    if c.slot.Some? {
      FreedOne(c.freed, c.slot.value);
      Moved(Freed(c.freed), Handed(c.out), multiset{c.slot.value.id});
    }
  }

  lemma {:induction false} Moved(f: multiset<nat>, h: multiset<nat>, p: multiset<nat>)
    ensures f + h + p == f + p + h + multiset{}
    ensures f + h + p == f + (h + p) + multiset{}
  {
  }

  lemma {:induction false} HandOverKeepsAccount(c: Channel, r: Returned)
    requires c.slot.Some? && Accounted(c) && r.response.Some? && r.response.value.id == c.slot.value.id
    ensures Accounted(Clear(c.(slot := None)).(out := c.out + [r]))
  {
    HandedOne(c.out, r);
    Moved(Freed(c.freed), Handed(c.out), multiset{c.slot.value.id});
  }

  lemma FinishKeepsAccount(c: Channel)
    requires c.slot.Some? && Accounted(c)
    ensures Accounted(Finish(c))
  {
    var r := c.slot.value.(lines := Reversed(c.slot.value.lines));
    var err := if c.closed then ChannelClosed else Ok;
    if !c.cmd.wants {
      FailKeepsAccount(c, err);
    } else if err == Ok && c.cmd.strict && r.success && r.lines == [] {
      FailKeepsAccount(c, InvalidResponse);
    } else {
      HandOverKeepsAccount(c, Returned(err, Some(r)));
    }
  }

  lemma IssueKeepsAccount(c: Channel, cmd: Command, wrote: bool)
    requires c.slot.None? && Accounted(c)
    ensures Accounted(OnIssue(c, cmd, wrote))
  {
    if cmd.text.Some? && c.closed {
      FailKeepsAccount(c, ChannelClosed);
    } else if cmd.text.Some? && !wrote {
      FailKeepsAccount(c, Generic);
    } else {
      var c1 := Installed(c, cmd);
      assert Accounted(c1);
      if c.closed {
        FinishKeepsAccount(c1);
      }
    }
  }

  lemma StepKeepsAccount(c: Channel, e: Event)
    requires SlotMatchesIssuer(c) && Enabled(c, e) && Accounted(c)
    ensures Accounted(Step(c, e))
  {
    match e
    case Issue(cmd, wrote) => IssueKeepsAccount(c, cmd, wrote);
    case Wake => FinishKeepsAccount(c);
    case Timeout => FailKeepsAccount(c, TimedOut);
    case Line(line) => assert OnlyReads(c, OnLine(c, line));
    case _ =>
  }

  lemma EachOnce(c: Channel, id: nat)
    requires Accounted(c)
    ensures Freed(c.freed)[id] + Handed(c.out)[id] + Pending(c)[id] == if id < c.next then 1 else 0
  {
    AllocatedOnce(c.next, id);
    assert (Freed(c.freed) + Handed(c.out) + Pending(c))[id] == Allocated(c.next)[id];
  }

  /** Each allocated response is freed once, or handed to the caller once, or the
      one now pending; nothing else is ever freed or handed over. */
  lemma {:induction false} ResponsesAreAccounted(c: Channel, evs: seq<Event>, id: nat)
    requires Init(c) && Possible(c, evs)
    ensures Accounted(After(c, evs))
    ensures var t := After(c, evs);
            Freed(t.freed)[id] + Handed(t.out)[id] + Pending(t)[id] == if id < t.next then 1 else 0
    decreases |evs|
  {
    if evs != [] {
      var n := |evs| - 1;
      ResponsesAreAccounted(c, evs[..n], id);
      RunKeepsSlot(c, evs[..n]);
      StepKeepsAccount(After(c, evs[..n]), evs[n]);
    }
    EachOnce(After(c, evs), id);
  }

  // ----- a closed channel ----------------------------------------------------

  /** While the channel is closed a new command fails at once with channel-closed,
      and one that was already waiting does not succeed. */
  lemma ClosedFails(c: Channel, e: Event)
    requires SlotMatchesIssuer(c) && Enabled(c, e) && c.closed && e != Open
    ensures Step(c, e).closed
    ensures e.Issue? ==> Step(c, e).out[..|c.out|] == c.out && |Step(c, e).out| == |c.out| + 1
                         && Step(c, e).out[|c.out|].err == ChannelClosed
    ensures |Step(c, e).out| > |c.out| ==> Step(c, e).out[|c.out|].err in {ChannelClosed, TimedOut}
  {
  }

  /** Opening ends that: the next command that can be written waits for its answer. */
  lemma {:induction false} ReopenedWaits(c: Channel, evs: seq<Event>, cmd: Command)
    requires Init(c) && Possible(c, evs) && Enabled(After(c, evs), Open)
    ensures var t := Step(After(c, evs), Open);
            && !t.closed && t.out == After(c, evs).out && Enabled(t, Issue(cmd, true))
            && Step(t, Issue(cmd, true)).waiting && Step(t, Issue(cmd, true)).out == t.out
  {
    RunKeepsSlot(c, evs);
  }

  lemma {:induction false} NoOpenBefore(evs: seq<Event>, from: nat, n: nat)
    requires from < n <= |evs| && evs[from] == Close && forall k :: from < k < |evs| ==> evs[k] != Open
    ensures evs[..n][from] == Close && forall k :: from < k < n ==> evs[..n][k] != Open
  {
  }

  /** Over runs: from a Close to the next Open, every issue returns channel-closed. */
  lemma {:induction false} ClosedUntilReopened(c: Channel, evs: seq<Event>, from: nat)
    requires Init(c) && Possible(c, evs) && from < |evs| && evs[from] == Close
    requires forall k :: from < k < |evs| ==> evs[k] != Open
    ensures After(c, evs).closed
    ensures from < |evs| - 1 && evs[|evs| - 1].Issue? ==>
              var before := After(c, evs[..|evs| - 1]); var after := After(c, evs);
              |after.out| == |before.out| + 1 && after.out[|before.out|].err == ChannelClosed
    decreases |evs|
  {
    var n := |evs| - 1;
    if from < n {
      NoOpenBefore(evs, from, n);
      ClosedUntilReopened(c, evs[..n], from);
      RunKeepsSlot(c, evs[..n]);
      ClosedFails(After(c, evs[..n]), evs[n]);
    }
  }

  // ----- what a command receives ---------------------------------------------

  /** A response's time in the slot: its command, whether raw data was set when it
      was issued, and the lines processed until it left. */
  datatype Installation = Installation(cmd: Command, raw: bool, lines: seq<string>)

  /** The command gets as far as allocating a response. */
  predicate Allocates(c: Channel, cmd: Command, wrote: bool)
  {
    c.slot.None? && (cmd.text.None? || (!c.closed && wrote))
  }

  function Heard(all: seq<Installation>, line: string): (r: seq<Installation>)
    requires all != []
    ensures |r| == |all| && r[..|all| - 1] == all[..|all| - 1]
    ensures r[|all| - 1] == all[|all| - 1].(lines := all[|all| - 1].lines + [line])
  {
    var n := |all| - 1;
    all[..n] + [all[n].(lines := all[n].lines + [line])]
  }

  /** The history of the slot: one entry per response, in the order of their ids. */
  function Installs(c: Channel, evs: seq<Event>): seq<Installation>
    requires Possible(c, evs)
    decreases |evs|
  {
    if evs == [] then []
    else
      var n := |evs| - 1;
      var t, before := After(c, evs[..n]), Installs(c, evs[..n]);
      match evs[n]
      case Issue(cmd, wrote) => if Allocates(t, cmd, wrote) then before + [Installation(cmd, t.raw.Some?, [])] else before
      case Line(line) => if t.slot.Some? && before != [] then Heard(before, line) else before
      case _ => before
  }

  /** The lines that answer `cmd`: neither final nor the awaited prompt, and of
      its shape; `lines` is what arrived while it was installed. */
  function Answers(cmd: Command, lines: seq<string>): seq<string>
    decreases |lines|
  {
    if lines == [] then []
    else
      var n := |lines| - 1;
      var l := lines[n];
      Answers(cmd, lines[..n]) +
      if !IsFinal(l) && !TakesPrompt(cmd, lines[..n], l) && Matches(cmd.kind, cmd.prefix, l)
      then [l] else []
  }

  /** A multi-line command takes them all, the others the first one. */
  function Expected(cmd: Command, lines: seq<string>): seq<string>
  {
    var all := Answers(cmd, lines);
    if cmd.kind == MultiLine || all == [] then all else all[..1]
  }

  /** The final line in force: the last one, not counting the raw-data CONNECT. */
  function LastFinal(raw: bool, lines: seq<string>): Option<string>
    decreases |lines|
  {
    if lines == [] then None
    else
      var n := |lines| - 1;
      if IsFinal(lines[n]) && !(raw && lines[n] == CONNECT && CONNECT !in lines[..n])
      then Some(lines[n]) else LastFinal(raw, lines[..n])
  }

  /** The one-shot triggers are still set iff their line has not come yet. */
  predicate TriggersTracked(c: Channel, cmd: Command, raw: bool, lines: seq<string>)
  {
    && (c.sms.Some? <==> cmd.sms.Some? && PROMPT !in lines)
    && (c.raw.Some? <==> raw && CONNECT !in lines)
  }

  predicate LinesTracked(c: Channel, cmd: Command, lines: seq<string>)
  {
    c.slot.Some? && c.cmd == cmd && Reversed(c.slot.value.lines) == Expected(cmd, lines)
  }

  predicate FinalTracked(c: Channel, raw: bool, lines: seq<string>)
  {
    && c.slot.Some?
    && c.slot.value.final == LastFinal(raw, lines)
    && (c.slot.value.success <==> c.slot.value.final.Some? && IsFinalSuccess(c.slot.value.final.value))
  }

  /** The pending response holds exactly what has arrived for its command. */
  predicate Collected(c: Channel, cmd: Command, raw: bool, lines: seq<string>)
  {
    TriggersTracked(c, cmd, raw, lines) && LinesTracked(c, cmd, lines) && FinalTracked(c, raw, lines)
  }

  lemma ConnectIsFinal()
    ensures IsFinalSuccess(CONNECT) && !IsFinal(PROMPT) && CONNECT != PROMPT
  {
    assert FINAL_SUCCESS[2] <= CONNECT;
    forall i | 0 <= i < |FINAL_SUCCESS|
      ensures !(FINAL_SUCCESS[i] <= PROMPT)
    {
      assert FINAL_SUCCESS[i][0] != '>';
    }
    forall i | 0 <= i < |FINAL_ERROR|
      ensures !(FINAL_ERROR[i] <= PROMPT)
    {
      assert FINAL_ERROR[i][0] != '>';
    }
  }

  predicate TakesPrompt(cmd: Command, lines: seq<string>, l: string)
  {
    cmd.sms.Some? && l == PROMPT && PROMPT !in lines
  }

  lemma AnswersNext(cmd: Command, lines: seq<string>, l: string)
    ensures Answers(cmd, lines + [l]) ==
            Answers(cmd, lines) +
            if !IsFinal(l) && !TakesPrompt(cmd, lines, l) && Matches(cmd.kind, cmd.prefix, l) then [l] else []
  {
    assert (lines + [l])[..|lines|] == lines;
  }

  lemma LastFinalNext(raw: bool, lines: seq<string>, l: string)
    ensures LastFinal(raw, lines + [l]) ==
            if IsFinal(l) && !(raw && l == CONNECT && CONNECT !in lines) then Some(l) else LastFinal(raw, lines)
  {
    assert (lines + [l])[..|lines|] == lines;
  }

  lemma ReversedPush(l: string, lines: seq<string>)
    ensures Reversed([l] + lines) == Reversed(lines) + [l]
  {
    assert ([l] + lines)[1..] == lines;
  }

  lemma LineKeepsTriggers(c: Channel, cmd: Command, raw: bool, lines: seq<string>, l: string)
    requires c.slot.Some? && TriggersTracked(c, cmd, raw, lines)
    ensures TriggersTracked(OnLine(c, l), cmd, raw, lines + [l])
  {
    ConnectIsFinal();
    assert l in lines + [l];
    assert forall x :: x in lines + [l] <==> x in lines || x == l;
  }

  /** The machine keeps a line exactly if it answers and there is room for it. */
  lemma {:induction false} KeepsLine(c: Channel, l: string)
    requires c.slot.Some?
    ensures OnLine(c, l).slot.value.lines == if Keeps(c, l) then [l] + c.slot.value.lines else c.slot.value.lines
  {
    ConnectIsFinal();
  }

  /** One more answer is kept by a multi-line command, or if it is the first. */
  lemma ExpectedNext(cmd: Command, lines: seq<string>, l: string)
    ensures var answers := !IsFinal(l) && !TakesPrompt(cmd, lines, l) && Matches(cmd.kind, cmd.prefix, l);
            Expected(cmd, lines + [l]) == Expected(cmd, lines) +
              if answers && (cmd.kind == MultiLine || Expected(cmd, lines) == []) then [l] else []
  {
    AnswersNext(cmd, lines, l);
  }

  lemma LineKeepsLines(c: Channel, cmd: Command, raw: bool, lines: seq<string>, l: string)
    requires LinesTracked(c, cmd, lines) && TriggersTracked(c, cmd, raw, lines)
    ensures LinesTracked(OnLine(c, l), cmd, lines + [l])
  {
    ConnectIsFinal();
    KeepsLine(c, l);
    ExpectedNext(cmd, lines, l);
    ReversedPush(l, c.slot.value.lines);
    assert c.slot.value.lines == [] <==> Expected(cmd, lines) == [];
    assert OnlyReads(c, OnLine(c, l));
  }

  lemma LineKeepsFinal(c: Channel, cmd: Command, raw: bool, lines: seq<string>, l: string)
    requires FinalTracked(c, raw, lines) && TriggersTracked(c, cmd, raw, lines)
    ensures FinalTracked(OnLine(c, l), raw, lines + [l])
  {
    ConnectIsFinal();
    LastFinalNext(raw, lines, l);
  }

  lemma LineKeepsCollected(c: Channel, cmd: Command, raw: bool, lines: seq<string>, l: string)
    requires Collected(c, cmd, raw, lines)
    ensures Collected(OnLine(c, l), cmd, raw, lines + [l])
  {
    LineKeepsTriggers(c, cmd, raw, lines, l);
    LineKeepsLines(c, cmd, raw, lines, l);
    LineKeepsFinal(c, cmd, raw, lines, l);
  }

  /** What the response number k of this installation should hold at its end. */
  function Meant(k: nat, i: Installation): Response
  {
    var final := LastFinal(i.raw, i.lines);
    Response(k, final.Some? && IsFinalSuccess(final.value), final, Expected(i.cmd, i.lines))
  }

  /** A response with its lines in arrival order. */
  function InOrder(r: Response): Response
  {
    r.(lines := Reversed(r.lines))
  }

  function FreedAs(freed: seq<Response>, k: nat): Option<Response>
  {
    if freed == [] then None
    else
      var n := |freed| - 1;
      if freed[n].id == k then Some(InOrder(freed[n])) else FreedAs(freed[..n], k)
  }

  function HandedAs(out: seq<Returned>, k: nat): Option<Response>
  {
    if out == [] then None
    else
      var n := |out| - 1;
      if out[n].response.Some? && out[n].response.value.id == k then out[n].response else HandedAs(out[..n], k)
  }

  /** Where response k ended up. */
  function Settled(c: Channel, k: nat): Option<Response>
  {
    if FreedAs(c.freed, k).Some? then FreedAs(c.freed, k) else HandedAs(c.out, k)
  }

  /** Response k wherever it is: freed, handed over, or pending. */
  function Held(c: Channel, k: nat): Option<Response>
  {
    if c.slot.Some? && c.slot.value.id == k then Some(InOrder(c.slot.value)) else Settled(c, k)
  }

  /** How many responses have left the slot. */
  function Left(c: Channel): int
  {
    if c.slot.Some? then c.next - 1 else c.next
  }

  /** The responses so far against the slot's history. */
  ghost predicate Told(c: Channel, all: seq<Installation>)
  {
    && |all| == c.next && 0 <= Left(c)
    && (c.slot.Some? ==> c.slot.value.id == c.next - 1 && Pends(c, all[c.next - 1]))
    && (forall k: nat :: k < Left(c) ==> Settled(c, k) == Some(Meant(k, all[k])))
    && (forall k: nat :: Left(c) <= k ==> Settled(c, k) == None)
  }

  predicate Pends(c: Channel, i: Installation)
  {
    Collected(c, i.cmd, i.raw, i.lines)
  }

  lemma {:induction false} FreedNext(freed: seq<Response>, r: Response, k: nat)
    ensures FreedAs(freed + [r], k) == if r.id == k then Some(InOrder(r)) else FreedAs(freed, k)
  {
    assert (freed + [r])[..|freed|] == freed;
  }

  lemma {:induction false} HandedNext(out: seq<Returned>, r: Returned, k: nat)
    ensures HandedAs(out + [r], k) ==
            if r.response.Some? && r.response.value.id == k then r.response else HandedAs(out, k)
  {
    assert (out + [r])[..|out|] == out;
  }

  lemma {:induction false} PendingIsMeant(c: Channel, i: Installation)
    requires c.slot.Some? && Pends(c, i)
    ensures InOrder(c.slot.value) == Meant(c.slot.value.id, i)
  {
  }

  /** A response that leaves the slot is found again as it was meant. */
  lemma {:induction false} LeavesAsMeant(c: Channel, t: Channel, all: seq<Installation>)
    requires Told(c, all) && c.slot.Some? && t.slot.None? && t.next == c.next
    requires forall k: nat :: Settled(t, k) == if k == c.next - 1 then Some(InOrder(c.slot.value)) else Settled(c, k)
    ensures Told(t, all)
  {
    PendingIsMeant(c, all[c.next - 1]);
  }

  lemma {:induction false} FailSettles(c: Channel, err: Error, k: nat)
    ensures Settled(Fail(c, err), k) ==
            if c.slot.Some? && c.slot.value.id == k then Some(InOrder(c.slot.value)) else Settled(c, k)
  {
    HandedNext(c.out, Returned(err, None), k);
    if c.slot.Some? {
      FreedNext(c.freed, c.slot.value, k);
    }
  }

  lemma {:induction false} FailTold(c: Channel, err: Error, all: seq<Installation>)
    requires Told(c, all)
    ensures Told(Fail(c, err), all)
  {
    var t := Fail(c, err);
    forall k: nat
      ensures Settled(t, k) == if c.slot.Some? && c.slot.value.id == k then Some(InOrder(c.slot.value)) else Settled(c, k)
    {
      FailSettles(c, err, k);
    }
    if c.slot.Some? {
      LeavesAsMeant(c, t, all);
    }
  }

  lemma {:induction false} HandOverTold(c: Channel, r: Returned, all: seq<Installation>)
    requires Told(c, all) && c.slot.Some? && r.response == Some(InOrder(c.slot.value))
    ensures Told(Clear(c.(slot := None)).(out := c.out + [r]), all)
  {
    var t := Clear(c.(slot := None)).(out := c.out + [r]);
    forall k: nat
      ensures Settled(t, k) == if k == c.next - 1 then Some(InOrder(c.slot.value)) else Settled(c, k)
    {
      HandedNext(c.out, r, k);
      assert k == c.next - 1 ==> Settled(c, k) == None;
    }
    LeavesAsMeant(c, t, all);
  }

  lemma {:induction false} FinishTold(c: Channel, all: seq<Installation>)
    requires Told(c, all) && c.slot.Some?
    ensures Told(Finish(c), all)
  {
    var r := InOrder(c.slot.value);
    var err := if c.closed then ChannelClosed else Ok;
    if !c.cmd.wants {
      FailTold(c, err, all);
    } else if err == Ok && c.cmd.strict && r.success && r.lines == [] {
      FailTold(c, InvalidResponse, all);
    } else {
      HandOverTold(c, Returned(err, Some(r)), all);
    }
  }

  lemma {:induction false} InstalledTold(c: Channel, cmd: Command, all: seq<Installation>)
    requires Told(c, all) && c.slot.None?
    ensures Told(Installed(c, cmd), all + [Installation(cmd, c.raw.Some?, [])])
  {
    var t, i := Installed(c, cmd), Installation(cmd, c.raw.Some?, []);
    assert Pends(t, i);
    forall k: nat
      ensures Settled(t, k) == Settled(c, k)
    {
    }
  }

  lemma {:induction false} IssueTold(c: Channel, cmd: Command, wrote: bool, all: seq<Installation>)
    requires Told(c, all) && c.slot.None?
    ensures Told(OnIssue(c, cmd, wrote),
                 if Allocates(c, cmd, wrote) then all + [Installation(cmd, c.raw.Some?, [])] else all)
  {
    if Allocates(c, cmd, wrote) {
      var t, more := Installed(c, cmd), all + [Installation(cmd, c.raw.Some?, [])];
      InstalledTold(c, cmd, all);
      if c.closed {
        FinishTold(t, more);
      } else {
        WaitingTold(t, more);
      }
    } else {
      FailTold(c, if cmd.text.Some? && c.closed then ChannelClosed else Generic, all);
    }
  }

  lemma {:induction false} WaitingTold(c: Channel, all: seq<Installation>)
    requires Told(c, all)
    ensures Told(c.(waiting := true), all)
  {
    var t := c.(waiting := true);
    forall k: nat
      ensures Settled(t, k) == Settled(c, k)
    {
    }
  }

  lemma {:induction false} LineTold(c: Channel, line: string, all: seq<Installation>)
    requires Told(c, all)
    ensures Told(OnLine(c, line), if c.slot.Some? then Heard(all, line) else all)
  {
    var t := OnLine(c, line);
    assert OnlyReads(c, t);
    forall k: nat
      ensures Settled(t, k) == Settled(c, k)
    {
    }
    if c.slot.Some? {
      var i := all[c.next - 1];
      LineKeepsCollected(c, i.cmd, i.raw, i.lines, line);
      assert Pends(t, Heard(all, line)[c.next - 1]);
    }
  }

  lemma {:induction false} OthersTold(c: Channel, e: Event, all: seq<Installation>)
    requires SlotMatchesIssuer(c) && Enabled(c, e) && Told(c, all) && (e.SmsLines? || e.SetRaw? || e.Close? || e.Open?)
    ensures Told(Step(c, e), all)
  {
    var t := Step(c, e);
    forall k: nat
      ensures Settled(t, k) == Settled(c, k)
    {
    }
    if c.slot.Some? {
      assert Pends(t, all[c.next - 1]);
    }
  }

  lemma {:induction false} RunTells(c: Channel, evs: seq<Event>)
    requires Init(c) && Possible(c, evs)
    ensures Told(After(c, evs), Installs(c, evs))
    decreases |evs|
  {
    if evs != [] {
      var n := |evs| - 1;
      RunTells(c, evs[..n]);
      RunKeepsSlot(c, evs[..n]);
      var t, all := After(c, evs[..n]), Installs(c, evs[..n]);
      match evs[n]
      case Line(line) => LineTold(t, line, all);
      case Issue(cmd, wrote) => IssueTold(t, cmd, wrote, all);
      case Wake => FinishTold(t, all);
      case Timeout => FailTold(t, TimedOut, all);
      case _ => OthersTold(t, evs[n], all);
    }
  }

  /** What every response of a run holds, wherever it is: in arrival order exactly
      the lines that answer its command among those processed while it was in the
      slot, the last final line of that time, and success iff that is a success code. */
  lemma {:induction false} ResponsesHold(c: Channel, evs: seq<Event>, k: nat)
    requires Init(c) && Possible(c, evs) && k < After(c, evs).next
    ensures |Installs(c, evs)| == After(c, evs).next
    ensures Held(After(c, evs), k) == Some(Meant(k, Installs(c, evs)[k]))
  {
    RunTells(c, evs);
    var t, all := After(c, evs), Installs(c, evs);
    if t.slot.Some? && k == t.next - 1 {
      PendingIsMeant(t, all[k]);
    } else {
      assert k < Left(t);
    }
  }

  /** A command that ends without error returns what its response should hold. */
  lemma {:induction false} WokenCommandReceives(c: Channel, evs: seq<Event>)
    requires Init(c) && Possible(c, evs) && Enabled(After(c, evs), Wake)
    requires After(c, evs).cmd.wants && !After(c, evs).closed
    ensures Installs(c, evs) != []
    ensures var t, all := After(c, evs), Installs(c, evs);
            var i := all[|all| - 1];
            var got := Step(t, Wake).out[|t.out|];
            && i.cmd == t.cmd && LastFinal(i.raw, i.lines).Some?
            && var r := Meant(|all| - 1, i);
               if i.cmd.strict && r.success && r.lines == [] then got == Returned(InvalidResponse, None)
               else got == Returned(Ok, Some(r))
  {
    RunTells(c, evs);
    var t, all := After(c, evs), Installs(c, evs);
    PendingIsMeant(t, all[|all| - 1]);
  }

  /** The error a command ends with, for every way it can end; nothing else makes a
      command return.  A response comes with it only if the caller takes one and the
      wait ended otherwise than by a timeout. */
  lemma {:induction false} CommandEnds(c: Channel, evs: seq<Event>, e: Event)
    requires Init(c) && Possible(c, evs) && Enabled(After(c, evs), e)
    ensures var t := After(c, evs);
            var out := Step(t, e).out;
            match e
            case Timeout => out == t.out + [Returned(TimedOut, None)]
            case Wake =>
              if !t.cmd.wants then out == t.out + [Returned(if t.closed then ChannelClosed else Ok, None)]
              else if t.closed then out == t.out + [Returned(ChannelClosed, Some(InOrder(t.slot.value)))]
              else |out| == |t.out| + 1 && out[|t.out|].err in {Ok, InvalidResponse}
            case Issue(cmd, wrote) =>
              if cmd.text.Some? && t.closed then out == t.out + [Returned(ChannelClosed, None)]
              else if cmd.text.Some? && !wrote then out == t.out + [Returned(Generic, None)]
              else if t.closed then |out| == |t.out| + 1 && out[|t.out|].err == ChannelClosed
              else out == t.out && Step(t, e).waiting
            case _ => out == t.out
  {
    var t := After(c, evs);
    RunKeepsSlot(c, evs);
    RunTells(c, evs);
    match e
    case Wake => WakeEnds(t);
    case Issue(cmd, wrote) => IssueEnds(t, cmd, wrote);
    case Line(line) => assert OnlyReads(t, OnLine(t, line));
    case _ =>
  }

  lemma {:induction false} WakeEnds(t: Channel)
    requires t.slot.Some? && t.slot.value.id == t.next - 1
    ensures var out := Finish(t).out;
            if !t.cmd.wants then out == t.out + [Returned(if t.closed then ChannelClosed else Ok, None)]
            else if t.closed then out == t.out + [Returned(ChannelClosed, Some(InOrder(t.slot.value)))]
            else |out| == |t.out| + 1 && out[|t.out|].err in {Ok, InvalidResponse}
  {
  }

  lemma {:induction false} IssueEnds(t: Channel, cmd: Command, wrote: bool)
    requires t.slot.None?
    ensures var u := OnIssue(t, cmd, wrote);
            if cmd.text.Some? && t.closed then u.out == t.out + [Returned(ChannelClosed, None)]
            else if cmd.text.Some? && !wrote then u.out == t.out + [Returned(Generic, None)]
            else if t.closed then |u.out| == |t.out| + 1 && u.out[|t.out|].err == ChannelClosed
            else u.out == t.out && u.waiting
  {
  }

  /** The final result codes, written out. */
  lemma {:induction false} FinalCodes(line: string)
    ensures IsFinalSuccess(line) <==>
            "OK" <= line || "+QIND: \"FOTA\",\"END\",0" <= line || "CONNECT" <= line
    ensures IsFinalError(line) <==>
            || "ERROR" <= line || "+CMS ERROR:" <= line || "+CME ERROR:" <= line || "NO CARRIER" <= line
            || "NO ANSWER" <= line || "NO DIALTONE" <= line || "COMMAND NOT SUPPORT" <= line
    ensures PROMPT == "> " && CONNECT == "CONNECT"
  {
    assert FINAL_SUCCESS[0] == "OK" && FINAL_SUCCESS[1] == "+QIND: \"FOTA\",\"END\",0" && FINAL_SUCCESS[2] == "CONNECT";
    assert FINAL_ERROR[0] == "ERROR" && FINAL_ERROR[1] == "+CMS ERROR:" && FINAL_ERROR[2] == "+CME ERROR:";
    assert FINAL_ERROR[3] == "NO CARRIER" && FINAL_ERROR[4] == "NO ANSWER" && FINAL_ERROR[5] == "NO DIALTONE";
    assert FINAL_ERROR[6] == "COMMAND NOT SUPPORT";
  }

  /** A successful single-line or numeric command has exactly one intermediate. */
  lemma {:induction false} StrictCommandHasOneLine(c: Channel, evs: seq<Event>)
    requires Init(c) && Possible(c, evs) && Enabled(After(c, evs), Wake)
    requires After(c, evs).cmd.wants && After(c, evs).cmd.strict && After(c, evs).cmd.kind in {SingleLine, Numeric}
    ensures var t := After(c, evs);
            var got := Step(t, Wake).out[|t.out|];
            got.err == Ok && got.response.value.success ==> |got.response.value.lines| == 1
  {
    RunTells(c, evs);
    var t, all := After(c, evs), Installs(c, evs);
    PendingIsMeant(t, all[|all| - 1]);
  }

  // ----- conservation of lines -----------------------------------------------

  function Processed(evs: seq<Event>): seq<string>
    decreases |evs|
  {
    if evs == [] then []
    else
      var n := |evs| - 1;
      Processed(evs[..n]) + if evs[n].Line? then [evs[n].line] else []
  }

  /** The line makes the reader send the raw data or the SMS text. */
  predicate Triggers(i: Installation, l: string)
  {
    TakesPrompt(i.cmd, i.lines, l) || (i.raw && l == CONNECT && CONNECT !in i.lines)
  }

  /** The line is one more that the response should hold. */
  predicate Answer(i: Installation, l: string)
  {
    Expected(i.cmd, i.lines + [l]) != Expected(i.cmd, i.lines)
  }

  /** The line is none of the command's business. */
  predicate Foreign(i: Installation, l: string)
  {
    !IsFinal(l) && !Triggers(i, l) && !Answer(i, l)
  }

  /** What the unsolicited handler should be called with: the lines processed while
      nothing was pending, and those that were none of the command's business. */
  function Unclaimed(c: Channel, evs: seq<Event>): seq<string>
    requires Possible(c, evs)
    decreases |evs|
  {
    if evs == [] then []
    else
      var n := |evs| - 1;
      var t, all := After(c, evs[..n]), Installs(c, evs[..n]);
      Unclaimed(c, evs[..n]) +
      if evs[n].Line? && (t.slot.None? || all == [] || Foreign(all[|all| - 1], evs[n].line)) then [evs[n].line] else []
  }

  function Triggering(c: Channel, evs: seq<Event>): seq<string>
    requires Possible(c, evs)
    decreases |evs|
  {
    if evs == [] then []
    else
      var n := |evs| - 1;
      var t, all := After(c, evs[..n]), Installs(c, evs[..n]);
      Triggering(c, evs[..n]) +
      if evs[n].Line? && t.slot.Some? && all != [] && Triggers(all[|all| - 1], evs[n].line) then [evs[n].line] else []
  }

  /** The final lines of an installation; each but the last is overwritten. */
  function Finals(raw: bool, lines: seq<string>): seq<string>
    decreases |lines|
  {
    if lines == [] then []
    else
      var n := |lines| - 1;
      Finals(raw, lines[..n]) +
      if IsFinal(lines[n]) && !(raw && lines[n] == CONNECT && CONNECT !in lines[..n]) then [lines[n]] else []
  }

  function Overwritten(i: Installation): seq<string>
  {
    var all := Finals(i.raw, i.lines);
    if all == [] then [] else all[..|all| - 1]
  }

  /** The lines lost in a run: final lines overwritten by a later one. */
  function Lost(all: seq<Installation>): seq<string>
  {
    if all == [] then [] else Lost(all[..|all| - 1]) + Overwritten(all[|all| - 1])
  }

  /** The lines a response holds. */
  function Contents(r: Response): seq<string>
  {
    r.lines + if r.final.Some? then [r.final.value] else []
  }

  /** All lines held by the first n responses, wherever they are, by id. */
  function Stored(c: Channel, n: nat): seq<string>
  {
    if n == 0 then []
    else Stored(c, n - 1) + if Held(c, n - 1).Some? then Contents(Held(c, n - 1).value) else []
  }

  lemma {:induction false} LastIsInForce(raw: bool, lines: seq<string>)
    ensures var all := Finals(raw, lines);
            LastFinal(raw, lines) == if all == [] then None else Some(all[|all| - 1])
    decreases |lines|
  {
    if lines != [] {
      LastIsInForce(raw, lines[..|lines| - 1]);
    }
  }

  /** Everything an installation claims for its response. */
  function Claimed(i: Installation): multiset<string>
  {
    multiset(Expected(i.cmd, i.lines)) + multiset(Finals(i.raw, i.lines))
  }

  function AllClaimed(all: seq<Installation>): multiset<string>
  {
    if all == [] then multiset{} else AllClaimed(all[..|all| - 1]) + Claimed(all[|all| - 1])
  }

  lemma {:induction false} FinalsNext(raw: bool, lines: seq<string>, l: string)
    ensures Finals(raw, lines + [l]) ==
            Finals(raw, lines) + if IsFinal(l) && !(raw && l == CONNECT && CONNECT !in lines) then [l] else []
  {
    assert (lines + [l])[..|lines|] == lines;
  }

  /** One line is claimed, or triggers, or is foreign: exactly one of them. */
  lemma {:induction false} ClaimedNext(i: Installation, l: string)
    ensures Claimed(i.(lines := i.lines + [l])) ==
            Claimed(i) + if Foreign(i, l) || Triggers(i, l) then multiset{} else multiset{l}
    ensures !(Foreign(i, l) && Triggers(i, l))
  {
    ConnectIsFinal();
    FinalsNext(i.raw, i.lines, l);
    ExpectedNext(i.cmd, i.lines, l);
  }

  lemma {:induction false} HeardClaims(all: seq<Installation>, l: string)
    requires all != []
    ensures AllClaimed(Heard(all, l)) ==
            AllClaimed(all) +
            if Foreign(all[|all| - 1], l) || Triggers(all[|all| - 1], l) then multiset{} else multiset{l}
  {
    ClaimedNext(all[|all| - 1], l);
  }

  lemma {:induction false} NewClaimsNothing(all: seq<Installation>, cmd: Command, raw: bool)
    ensures AllClaimed(all + [Installation(cmd, raw, [])]) == AllClaimed(all)
  {
    assert (all + [Installation(cmd, raw, [])])[..|all|] == all;
  }

  lemma {:induction false} AddLine(p: seq<string>, u: seq<string>, t: seq<string>, claimed: multiset<string>, l: string)
    requires multiset(p) == multiset(u) + multiset(t) + claimed
    ensures multiset(p + [l]) == multiset(u + [l]) + multiset(t) + claimed
    ensures multiset(p + [l]) == multiset(u) + multiset(t + [l]) + claimed
    ensures multiset(p + [l]) == multiset(u) + multiset(t) + (claimed + multiset{l})
  {
  }

  /** The terms of the balance after one more event. */
  lemma {:induction false} LineTerms(c: Channel, evs: seq<Event>, l: string)
    requires Possible(c, evs) && evs != [] && evs[|evs| - 1] == Line(l)
    ensures var n := |evs| - 1;
            var t, all := After(c, evs[..n]), Installs(c, evs[..n]);
            var mine := t.slot.Some? && all != [];
            && Processed(evs) == Processed(evs[..n]) + [l]
            && Unclaimed(c, evs) == Unclaimed(c, evs[..n]) + (if !mine || Foreign(all[|all| - 1], l) then [l] else [])
            && Triggering(c, evs) == Triggering(c, evs[..n]) + (if mine && Triggers(all[|all| - 1], l) then [l] else [])
            && Installs(c, evs) == if mine then Heard(all, l) else all
  {
  }

  lemma {:induction false} OtherTerms(c: Channel, evs: seq<Event>)
    requires Possible(c, evs) && evs != [] && !evs[|evs| - 1].Line?
    ensures var n := |evs| - 1;
            && Processed(evs) == Processed(evs[..n]) && Unclaimed(c, evs) == Unclaimed(c, evs[..n])
            && Triggering(c, evs) == Triggering(c, evs[..n])
            && AllClaimed(Installs(c, evs)) == AllClaimed(Installs(c, evs[..n]))
  {
    var n := |evs| - 1;
    if evs[n].Issue? {
      NewClaimsNothing(Installs(c, evs[..n]), evs[n].cmd, After(c, evs[..n]).raw.Some?);
    }
  }

  lemma {:induction false} LineBalances(
      p: seq<string>, u: seq<string>, t: seq<string>, all: seq<Installation>, mine: bool, l: string)
    requires multiset(p) == multiset(u) + multiset(t) + AllClaimed(all) && (mine ==> all != [])
    ensures multiset(p + [l]) ==
            multiset(u + (if !mine || Foreign(all[|all| - 1], l) then [l] else []))
            + multiset(t + (if mine && Triggers(all[|all| - 1], l) then [l] else []))
            + AllClaimed(if mine then Heard(all, l) else all)
  {
    AddLine(p, u, t, AllClaimed(all), l);
    assert u + [] == u && t + [] == t;
    if mine {
      HeardClaims(all, l);
      ClaimedNext(all[|all| - 1], l);
    }
  }

  /** Over the history alone: each line is foreign, triggering or claimed, once. */
  lemma {:induction false} HistoryBalances(c: Channel, evs: seq<Event>)
    requires Possible(c, evs)
    ensures multiset(Processed(evs)) ==
            multiset(Unclaimed(c, evs)) + multiset(Triggering(c, evs)) + AllClaimed(Installs(c, evs))
    decreases |evs|
  {
    if evs != [] {
      var n := |evs| - 1;
      HistoryBalances(c, evs[..n]);
      if evs[n].Line? {
        var t, all := After(c, evs[..n]), Installs(c, evs[..n]);
        LineTerms(c, evs, evs[n].line);
        LineBalances(Processed(evs[..n]), Unclaimed(c, evs[..n]), Triggering(c, evs[..n]), all,
                     t.slot.Some? && all != [], evs[n].line);
      } else {
        OtherTerms(c, evs);
      }
    }
  }

  /** The machine keeps a line for the pending response. */
  predicate Keeps(c: Channel, l: string)
    requires c.slot.Some?
  {
    && !IsFinal(l) && !(c.sms.Some? && l == PROMPT) && Matches(c.cmd.kind, c.cmd.prefix, l)
    && (c.cmd.kind == MultiLine || c.slot.value.lines == [])
  }

  /** What the machine does with a line, by its own fields. */
  lemma {:induction false} LineLog(c: Channel, l: string)
    requires c.slot.Some?
    ensures var sends := (c.raw.Some? && l == CONNECT) || (c.sms.Some? && l == PROMPT);
            OnLine(c, l).log ==
              Log(c.log.unsolicited + (if !IsFinal(l) && !sends && !Keeps(c, l) then [l] else []),
                  c.log.trigger + (if sends then [l] else []))
  {
    ConnectIsFinal();
  }

  lemma {:induction false} KeepsAnswers(c: Channel, i: Installation, l: string)
    requires c.slot.Some? && Pends(c, i)
    ensures Keeps(c, l) <==> Answer(i, l)
    ensures ((c.raw.Some? && l == CONNECT) || (c.sms.Some? && l == PROMPT)) <==> Triggers(i, l)
  {
    ConnectIsFinal();
    ExpectedNext(i.cmd, i.lines, l);
    assert c.slot.value.lines == [] <==> Expected(i.cmd, i.lines) == [];
  }

  /** What the reader does with a line is what the history says of it. */
  lemma {:induction false} LineLogged(c: Channel, i: Installation, l: string)
    requires c.slot.Some? && Pends(c, i)
    ensures OnLine(c, l).log.unsolicited == c.log.unsolicited + if Foreign(i, l) then [l] else []
    ensures OnLine(c, l).log.trigger == c.log.trigger + if Triggers(i, l) then [l] else []
  {
    LineLog(c, l);
    KeepsAnswers(c, i, l);
  }

  lemma {:induction false} OthersLogNothing(c: Channel, e: Event)
    requires Enabled(c, e) && !e.Line?
    ensures Step(c, e).log == c.log
  {
  }

  /** The unsolicited handler is called, in arrival order, with exactly the lines
      that were nobody's, and data is sent for exactly the lines that ask for it. */
  lemma {:induction false} HandlerGetsTheRest(c: Channel, evs: seq<Event>)
    requires Init(c) && Possible(c, evs)
    ensures After(c, evs).log == Log(Unclaimed(c, evs), Triggering(c, evs))
    decreases |evs|
  {
    if evs != [] {
      var n := |evs| - 1;
      HandlerGetsTheRest(c, evs[..n]);
      RunTells(c, evs[..n]);
      var t, all := After(c, evs[..n]), Installs(c, evs[..n]);
      if !evs[n].Line? {
        OthersLogNothing(t, evs[n]);
      } else if t.slot.Some? {
        LineLogged(t, all[|all| - 1], evs[n].line);
      }
    }
  }

  lemma {:induction false} MeantOrLost(k: nat, i: Installation)
    ensures Claimed(i) == multiset(Contents(Meant(k, i))) + multiset(Overwritten(i))
  {
    LastIsInForce(i.raw, i.lines);
    var all, kept := Finals(i.raw, i.lines), Expected(i.cmd, i.lines);
    if all != [] {
      FrontAndLast(kept, all);
    } else {
      assert kept + [] == kept;
    }
  }

  lemma {:induction false} FrontAndLast(kept: seq<string>, all: seq<string>)
    requires all != []
    ensures multiset(kept) + multiset(all) == multiset(kept + [all[|all| - 1]]) + multiset(all[..|all| - 1])
  {
    assert all == all[..|all| - 1] + [all[|all| - 1]];
  }

  /** All claims up to n are met or overwritten. */
  ghost predicate Met(c: Channel, all: seq<Installation>, n: nat)
    requires n <= |all|
  {
    AllClaimed(all[..n]) == multiset(Stored(c, n)) + multiset(Lost(all[..n]))
  }

  lemma {:induction false} MetNext(c: Channel, all: seq<Installation>, n: nat)
    requires n < |all| && Met(c, all, n) && Held(c, n) == Some(Meant(n, all[n]))
    ensures Met(c, all, n + 1)
  {
    var i := all[n];
    assert all[..n + 1][..n] == all[..n] && all[..n + 1][n] == i;
    MeantOrLost(n, i);
    Combine(Stored(c, n), Lost(all[..n]), Contents(Meant(n, i)), Overwritten(i));
    assert AllClaimed(all[..n + 1]) == AllClaimed(all[..n]) + Claimed(i);
    assert Stored(c, n + 1) == Stored(c, n) + Contents(Meant(n, i));
    assert Lost(all[..n + 1]) == Lost(all[..n]) + Overwritten(i);
  }

  /** Every response is somewhere and holds what it should. */
  ghost predicate AllHeld(c: Channel, all: seq<Installation>)
  {
    forall k: nat :: k < |all| ==> Held(c, k) == Some(Meant(k, all[k]))
  }

  lemma {:induction false} RunHoldsAll(c: Channel, evs: seq<Event>)
    requires Init(c) && Possible(c, evs)
    ensures |Installs(c, evs)| == After(c, evs).next && AllHeld(After(c, evs), Installs(c, evs))
  {
    RunTells(c, evs);
    forall k: nat | k < |Installs(c, evs)|
      ensures Held(After(c, evs), k) == Some(Meant(k, Installs(c, evs)[k]))
    {
      ResponsesHold(c, evs, k);
    }
  }

  lemma {:induction false} StoredOrLost(c: Channel, all: seq<Installation>, n: nat)
    requires AllHeld(c, all) && n <= |all|
    ensures Met(c, all, n)
  {
    if n == 0 {
      assert all[..0] == [];
    } else {
      StoredOrLost(c, all, n - 1);
      MetNext(c, all, n - 1);
    }
  }

  lemma {:induction false} Combine(s: seq<string>, l: seq<string>, s': seq<string>, l': seq<string>)
    ensures multiset(s) + multiset(l) + (multiset(s') + multiset(l')) == multiset(s + s') + multiset(l + l')
  {
  }

  /** Line conservation: over every interleaving each processed line went to the
      unsolicited handler, made the reader send data, is held by one response, or
      was a final line overwritten by a later one of the same command. */
  lemma {:induction false} LinesAreConserved(c: Channel, evs: seq<Event>)
    requires Init(c) && Possible(c, evs)
    ensures var t := After(c, evs);
            multiset(Processed(evs)) ==
              multiset(t.log.unsolicited) + multiset(t.log.trigger)
              + multiset(Stored(t, t.next)) + multiset(Lost(Installs(c, evs)))
  {
    var t, all := After(c, evs), Installs(c, evs);
    HistoryBalances(c, evs);
    HandlerGetsTheRest(c, evs);
    ClaimsAreMet(c, evs);
    Regroup(multiset(Processed(evs)), multiset(t.log.unsolicited), multiset(t.log.trigger), AllClaimed(all),
            multiset(Stored(t, t.next)), multiset(Lost(all)));
  }

  lemma {:induction false} ClaimsAreMet(c: Channel, evs: seq<Event>)
    requires Init(c) && Possible(c, evs)
    ensures var t, all := After(c, evs), Installs(c, evs);
            AllClaimed(all) == multiset(Stored(t, t.next)) + multiset(Lost(all))
  {
    var t, all := After(c, evs), Installs(c, evs);
    RunHoldsAll(c, evs);
    StoredOrLost(t, all, t.next);
    assert all[..t.next] == all;
  }

  lemma {:induction false} Regroup(
      p: multiset<string>, u: multiset<string>, t: multiset<string>, a: multiset<string>,
      s: multiset<string>, l: multiset<string>)
    requires p == u + t + a && a == s + l
    ensures p == u + t + s + l
  {
  }

  /** No command was sent two final lines. */
  predicate OneFinalEach(all: seq<Installation>)
  {
    all == [] ||
    (OneFinalEach(all[..|all| - 1]) && |Finals(all[|all| - 1].raw, all[|all| - 1].lines)| <= 1)
  }

  lemma {:induction false} LostIff(all: seq<Installation>)
    ensures Lost(all) == [] <==> OneFinalEach(all)
  {
    if all != [] {
      LostIff(all[..|all| - 1]);
    }
  }

  /** Nothing is lost in a run, the handler, the triggers and the responses together
      hold every processed line, if and only if no command was sent two final lines. */
  lemma {:induction false} NothingLostIff(c: Channel, evs: seq<Event>)
    requires Init(c) && Possible(c, evs)
    ensures var t := After(c, evs);
            multiset(Processed(evs)) ==
              multiset(t.log.unsolicited) + multiset(t.log.trigger) + multiset(Stored(t, t.next))
            <==> OneFinalEach(Installs(c, evs))
  {
    var t, all := After(c, evs), Installs(c, evs);
    LinesAreConserved(c, evs);
    LostIff(all);
    NothingAdded(multiset(Processed(evs)),
                 multiset(t.log.unsolicited) + multiset(t.log.trigger) + multiset(Stored(t, t.next)), Lost(all));
  }

  lemma {:induction false} NothingAdded(p: multiset<string>, q: multiset<string>, l: seq<string>)
    requires p == q + multiset(l)
    ensures p == q <==> l == []
  {
    if l != [] {
      assert multiset(l)[l[0]] > 0;
    }
  }

  lemma {:induction false} Extend(c: Channel, evs: seq<Event>, e: Event)
    requires Possible(c, evs) && Enabled(After(c, evs), e)
    ensures Possible(c, evs + [e]) && After(c, evs + [e]) == Step(After(c, evs), e)
    ensures e.Issue? && Allocates(After(c, evs), e.cmd, e.wrote) ==>
              Installs(c, evs + [e]) == Installs(c, evs) + [Installation(e.cmd, After(c, evs).raw.Some?, [])]
    ensures e.Line? && After(c, evs).slot.Some? && Installs(c, evs) != [] ==>
              Installs(c, evs + [e]) == Heard(Installs(c, evs), e.line)
  {
    assert (evs + [e])[..|evs|] == evs;
  }

  /** One command issued on an idle, open channel. */
  lemma {:induction false} IssuedAlone(c: Channel, cmd: Command)
    requires Init(c) && !c.closed
    ensures var evs := [Issue(cmd, true)];
            && Possible(c, evs) && After(c, evs).slot.Some? && After(c, evs).next == 1
            && Installs(c, evs) == [Installation(cmd, false, [])]
  {
    assert [] + [Issue(cmd, true)] == [Issue(cmd, true)];
    Extend(c, [], Issue(cmd, true));
  }

  /** One more line for the only command. */
  lemma {:induction false} HeardAlone(c: Channel, evs: seq<Event>, i: Installation, l: string)
    requires Possible(c, evs) && After(c, evs).slot.Some? && Installs(c, evs) == [i]
    ensures Possible(c, evs + [Line(l)]) && After(c, evs + [Line(l)]).slot.Some?
    ensures After(c, evs + [Line(l)]).next == After(c, evs).next
    ensures Installs(c, evs + [Line(l)]) == [i.(lines := i.lines + [l])]
  {
    Extend(c, evs, Line(l));
    assert OnlyReads(After(c, evs), OnLine(After(c, evs), l));
  }

  /** Final lines are no answers. */
  lemma {:induction false} TwoFinals(cmd: Command, a: string, b: string)
    requires IsFinal(a) && IsFinal(b)
    ensures Expected(cmd, [] + [a] + [b]) == [] && Finals(false, [] + [a] + [b]) == [a, b]
  {
    ExpectedNext(cmd, [], a);
    ExpectedNext(cmd, [] + [a], b);
    FinalsNext(false, [], a);
    FinalsNext(false, [] + [a], b);
  }

  /** It does happen, to any command: a final line that arrives before the issuer has
      woken up takes the place of the one before, and is all that is held. */
  lemma {:induction false} SecondFinalOverwrites(c: Channel, cmd: Command, a: string, b: string)
    requires Init(c) && !c.closed && IsFinal(a) && IsFinal(b)
    ensures var evs := [Issue(cmd, true)] + [Line(a)] + [Line(b)];
            && Possible(c, evs) && Lost(Installs(c, evs)) == [a]
            && After(c, evs).next == 1 && Stored(After(c, evs), 1) == [b]
  {
    var i := Installation(cmd, false, []);
    var e1 := [Issue(cmd, true)];
    IssuedAlone(c, cmd);
    HeardAlone(c, e1, i, a);
    HeardAlone(c, e1 + [Line(a)], i.(lines := i.lines + [a]), b);
    var evs, last := e1 + [Line(a)] + [Line(b)], Installation(cmd, false, [] + [a] + [b]);
    assert Installs(c, evs) == [last];
    TwoFinals(cmd, a, b);
    OnlyOne(last);
    StoredAlone(c, evs, last);
  }

  lemma {:induction false} StoredAlone(c: Channel, evs: seq<Event>, i: Installation)
    requires Init(c) && Possible(c, evs) && Installs(c, evs) == [i]
    ensures Stored(After(c, evs), 1) == Contents(Meant(0, i))
    ensures Finals(i.raw, i.lines) != [] && Expected(i.cmd, i.lines) == [] ==>
              Contents(Meant(0, i)) == [Finals(i.raw, i.lines)[|Finals(i.raw, i.lines)| - 1]]
  {
    RunHoldsAll(c, evs);
    assert Stored(After(c, evs), 0) == [];
    LastIsInForce(i.raw, i.lines);
  }

  lemma {:induction false} OnlyOne(i: Installation)
    ensures Lost([i]) == Overwritten(i)
  {
    assert [i][..0] == [];
    assert Lost([i]) == Lost([]) + Overwritten(i);
  }
}
