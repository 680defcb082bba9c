/** The AT channel as it runs: a pending response on the heap whose intermediate
    lines form a singly linked list, built newest first and reversed in place
    before the response is handed over. */
module AtChannels {
  import opened Common
  import opened AtProtocol
  import opened AtTheorems

  class AtLine {
    const line: string
    var next: AtLine?

    constructor (text: string, rest: AtLine?)
      ensures line == text && next == rest
    {
      line := text;
      next := rest;
    }
  }

  /** `nodes` is the null-terminated list that starts at `head`. */
  ghost predicate Chain(head: AtLine?, nodes: seq<AtLine>)
    reads nodes
  {
    if nodes == [] then head == null
    else head == nodes[0] && nodes[0] !in nodes[1..] && Chain(nodes[0].next, nodes[1..])
  }

  ghost function Texts(nodes: seq<AtLine>): (texts: seq<string>)
    ensures |texts| == |nodes|
  {
    if nodes == [] then [] else [nodes[0].line] + Texts(nodes[1..])
  }

  /** Pushing the first line onto the other pile does not change the outcome. */
  lemma TurnOne(x: string, todo: seq<string>, done: seq<string>)
    ensures Reversed([x] + todo) + done == Reversed(todo) + ([x] + done)
  {
    assert ([x] + todo)[1..] == todo;
  }

  lemma TextsPush(node: AtLine, nodes: seq<AtLine>)
    ensures Texts([node] + nodes) == [node.line] + Texts(nodes)
  {
    assert ([node] + nodes)[1..] == nodes;
  }

  /** The loop of the reversal: each node is pushed onto the list behind it. */
  method TurnRound(head: AtLine?, ghost nodes: seq<AtLine>) returns (last: AtLine?, ghost done: seq<AtLine>)
    requires Chain(head, nodes)
    modifies nodes
    ensures Chain(last, done)
    ensures multiset(done) == multiset(nodes)
    ensures Texts(done) == Reversed(Texts(nodes))
  {
    var cur := head;
    last, done := null, [];
    ghost var todo := nodes;
    while cur != null
      invariant Chain(cur, todo) && Chain(last, done)
      invariant multiset(todo) + multiset(done) == multiset(nodes)
      invariant forall n :: n in todo ==> n in nodes && n !in done
      invariant Reversed(Texts(todo)) + Texts(done) == Reversed(Texts(nodes))
      decreases |todo|
    {
      ghost var rest := todo[1..];
      assert todo == [todo[0]] + rest;
      assert cur in todo;
      TurnOne(cur.line, Texts(rest), Texts(done));
      TextsPush(cur, done);
      var next := cur.next;
      cur.next := last;
      last := cur;
      done := [cur] + done;
      cur, todo := next, rest;
    }
    assert todo == [];
  }

  class AtResponse {
    const id: nat
    var success: bool
    var final: Option<string>
    var intermediates: AtLine?
    ghost var nodes: seq<AtLine>

    ghost predicate Valid()
      reads this, nodes
    {
      Chain(intermediates, nodes)
    }

    ghost function Value(): Response
      reads this
    {
      Response(id, success, final, Texts(nodes))
    }

    constructor (number: nat)
      ensures Valid() && nodes == [] && Value() == Response(number, false, None, [])
    {
      id := number;
      success, final, intermediates, nodes := false, None, null, [];
    }

    /** addIntermediate: push at the head. */
    method AddLine(line: string)
      requires Valid()
      modifies this
      ensures Valid()
      ensures |nodes| == |old(nodes)| + 1 && nodes[1..] == old(nodes) && fresh(nodes[0])
      ensures Value() == old(Value()).(lines := [line] + old(Value()).lines)
    {
      var node := new AtLine(line, intermediates);
      TextsPush(node, nodes);
      assert ([node] + nodes)[1..] == nodes;
      intermediates, nodes := node, [node] + nodes;
    }

    /** reverseIntermediates: turn the list round by rewriting the links only. */
    method ReverseLines()
      requires Valid()
      modifies this, nodes
      ensures Valid() && multiset(nodes) == multiset(old(nodes))
      ensures Value() == old(Value()).(lines := Reversed(old(Value()).lines))
    {
      var head, done := TurnRound(intermediates, nodes);
      intermediates, nodes := head, done;
    }
  }

  /** An open channel with nothing pending and nothing recorded. */
  const IDLE: Channel := Channel(
    false, false, Command(None, NoResult, "", None, false, false), None, None, None, 0, Log([], []), [], [])

  class AtChannel {
    var closed: bool
    var waiting: bool
    var cmd: Command
    var sms: Option<string>
    var raw: Option<string>
    var slot: AtResponse?
    var next: nat
    ghost var log: Log
    ghost var out: seq<Returned>
    ghost var freed: seq<Response>

    /** The nodes of the pending response's list. */
    ghost function Nodes(): seq<AtLine>
      reads this, slot
    {
      if slot == null then [] else slot.nodes
    }

    ghost predicate Valid()
      reads this, slot, Nodes()
    {
      slot != null ==> slot.Valid()
    }

    ghost function Model(): Channel
      reads this, slot
    {
      Channel(closed, waiting, cmd, sms, raw, if slot == null then None else Some(slot.Value()), next, log, out, freed)
    }

    constructor ()
      ensures Valid() && slot == null && Model() == IDLE
    {
      closed, waiting, slot, next := false, false, null, 0;
      cmd := Command(None, NoResult, "", None, false, false);
      sms, raw := None, None;
      log, out, freed := Log([], []), [], [];
    }

    method HandleUnsolicited(line: string)
      requires Valid()
      modifies this`log
      ensures Valid() && Model() == Unsolicited(old(Model()), line)
    {
      log := log.(unsolicited := log.unsolicited + [line]);
    }

    method HandleFinal(line: string, success: bool)
      requires Valid() && slot != null
      modifies slot
      ensures Valid() && Model() == SetFinal(old(Model()), line, success)
      ensures Nodes() == old(Nodes())
    {
      slot.success := success;
      slot.final := Some(line);
    }

    method HandleIntermediate(line: string)
      requires Valid() && slot != null
      modifies slot
      ensures Valid() && Model() == AddIntermediate(old(Model()), line)
      ensures forall n :: n in Nodes() ==> n in old(Nodes()) || fresh(n)
    {
      slot.AddLine(line);
      assert slot.nodes == [slot.nodes[0]] + old(slot.nodes);
    }

    /** The switch on the type of the pending command. */
    method HandlePlain(line: string)
      requires Valid() && slot != null
      modifies this`log, slot
      ensures Valid() && Model() == OnPlainLine(old(Model()), line)
      ensures forall n :: n in Nodes() ==> n in old(Nodes()) || fresh(n)
    {
      match cmd.kind
      case NoResult =>
        HandleUnsolicited(line);
      case Numeric =>
        if slot.intermediates == null && line != [] && IsDigit(line[0]) {
          HandleIntermediate(line);
        } else {
          HandleUnsolicited(line);
        }
      case SingleLine =>
        if slot.intermediates == null && cmd.prefix <= line {
          HandleIntermediate(line);
        } else {
          HandleUnsolicited(line);
        }
      case MultiLine =>
        if cmd.prefix <= line {
          HandleIntermediate(line);
        } else {
          HandleUnsolicited(line);
        }
    }

    /** processLine, one section under the command mutex. */
    method ProcessLine(line: string)
      requires Valid()
      modifies this, slot
      ensures Valid() && Model() == OnLine(old(Model()), line)
      ensures slot == old(slot)
      ensures forall n :: n in Nodes() ==> n in old(Nodes()) || fresh(n)
    {
      if slot == null {
        HandleUnsolicited(line);
      } else if raw.Some? && line == CONNECT {
        raw := None;
        log := log.(trigger := log.trigger + [line]);
      } else if IsFinalSuccess(line) {
        HandleFinal(line, true);
      } else if IsFinalError(line) {
        HandleFinal(line, false);
      } else if sms.Some? && line == PROMPT {
        sms := None;
        log := log.(trigger := log.trigger + [line]);
      } else {
        HandlePlain(line);
      }
    }

    /** clearPendingCommand. */
    method Release()
      requires Valid()
      modifies this
      ensures Valid() && Model() == Clear(old(Model()))
    {
      if slot != null {
        freed := freed + [slot.Value()];
      }
      slot, sms, waiting := null, None, false;
    }

    method Abandon(err: Error)
      requires Valid()
      modifies this
      ensures Valid() && Model() == Fail(old(Model()), err)
    {
      Release();
      out := out + [Returned(err, None)];
    }

    /** The response leaves the slot and is the caller's from now on. */
    method HandOver(err: Error) returns (response: AtResponse)
      requires Valid() && slot != null
      modifies this
      ensures Valid() && slot == null && response == old(slot)
      ensures Model() == Clear(old(Model()).(slot := None)).(out := out)
      ensures out == old(out) + [Returned(err, Some(response.Value()))]
    {
      response := slot;
      slot := null;
      Release();
      out := out + [Returned(err, Some(response.Value()))];
    }

    /** The way out of the wait loop without a timeout.  The object returned is
        the pending response with its list reversed in place. */
    method Complete() returns (err: Error, response: AtResponse?)
      requires Valid() && slot != null
      modifies this, slot, Nodes()
      ensures Valid() && Model() == Finish(old(Model()))
      ensures response != null ==> response == old(slot) && response.Valid()
      ensures out == old(out) + [Returned(err, if response == null then None else Some(response.Value()))]
    {
      err := if closed then ChannelClosed else Ok;
      response := null;
      if !cmd.wants {
        Abandon(err);
        return;
      }
      slot.ReverseLines();
      assert Model() == old(Model()).(slot := Some(slot.Value()));
      if err == Ok && cmd.strict && slot.success && slot.intermediates == null {
        err := InvalidResponse;
        Abandon(err);
      } else {
        response := HandOver(err);
      }
    }

    /** A new response takes the slot. */
    method Install(command: Command)
      requires slot == null
      modifies this
      ensures Valid() && Model() == Installed(old(Model()), command)
      ensures slot != null && fresh(slot) && Nodes() == []
    {
      cmd, sms := command, command.sms;
      slot := new AtResponse(next);
      next := next + 1;
    }

    /** at_send_command_full_nolock up to the wait. */
    method SendCommand(command: Command, wrote: bool)
      requires Valid()
      modifies this, slot
      ensures Valid() && Model() == OnIssue(old(Model()), command, wrote)
      ensures slot == null || (fresh(slot) && Nodes() == [])
    {
      if slot != null {
        Abandon(CommandPending);
      } else if command.text.Some? && closed {
        Abandon(ChannelClosed);
      } else if command.text.Some? && !wrote {
        Abandon(Generic);
      } else {
        Install(command);
        if closed {
          var _, _ := Complete();
        } else {
          waiting := true;
        }
      }
    }

    method HandleEvent(e: Event)
      requires Valid() && Enabled(Model(), e)
      modifies this, slot, Nodes()
      ensures Valid() && Model() == Step(old(Model()), e)
      ensures slot == null || slot == old(slot) || fresh(slot)
      ensures forall n :: n in Nodes() ==> n in old(Nodes()) || fresh(n)
    {
      match e
      case Line(line) => ProcessLine(line);
      case SmsLines(_, _) =>
      case SetRaw(data) => raw := Some(data);
      case Issue(command, wrote) => SendCommand(command, wrote);
      case Wake => var _, _ := Complete();
      case Timeout => Abandon(TimedOut);
      case Close => closed := true;
      case Open => closed, slot, sms := false, null, None;
    }
  }

  /** Any run of the channel object is a run of the protocol; so every response ever
      allocated is pending, freed or handed over, with the contents meant for it. */
  method RunChannel(evs: seq<Event>) returns (channel: AtChannel)
    requires Possible(IDLE, evs)
    ensures channel.Valid() && channel.Model() == After(IDLE, evs)
    ensures AllHeld(channel.Model(), Installs(IDLE, evs))
  {
    channel := new AtChannel();
    PrefixPossible(IDLE, evs, 0);
    for i := 0 to |evs|
      invariant fresh(channel) && channel.Valid()
      invariant channel.slot == null || fresh(channel.slot)
      invariant forall n :: n in channel.Nodes() ==> fresh(n)
      invariant Possible(IDLE, evs[..i]) && channel.Model() == After(IDLE, evs[..i])
    {
      PrefixPossible(IDLE, evs, i + 1);
      assert evs[..i + 1][..i] == evs[..i];
      forall k | 0 <= k < |channel.Nodes()|
        ensures fresh(channel.Nodes()[k])
      {
        assert channel.Nodes()[k] in channel.Nodes();
      }
      channel.HandleEvent(evs[i]);
    }
    assert evs[..|evs|] == evs;
    RunHoldsAll(IDLE, evs);
  }

  lemma {:induction false} PrefixPossible(c: Channel, evs: seq<Event>, k: nat)
    requires k <= |evs| && Possible(c, evs)
    ensures Possible(c, evs[..k])
    decreases |evs|
  {
    if k == |evs| {
      assert evs[..k] == evs;
    } else {
      var n := |evs| - 1;
      PrefixPossible(c, evs[..n], k);
      assert evs[..n][..k] == evs[..k];
    }
  }
}
