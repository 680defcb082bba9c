/** From bytes to commands: the reader loop takes lines off the stream, hands an SMS
    announcement and the line behind it to the handler as a pair, and gives every
    other line to the channel, while another thread issues commands. */
module AtReading {
  import opened Common
  import opened LineSpec
  import opened LineReading
  import opened AtProtocol
  import opened AtTheorems
  import opened AtChannels

  const SMS: seq<string> := ["+CMT:", "+CDS:", "+CBM:", "+CMTI:"]

  /** isSMSUnsolicited. */
  predicate IsSms(line: string)
  {
    StartsWithAny(line, SMS)
  }

  lemma {:induction false} SmsCodes(line: string)
    ensures IsSms(line) <==> "+CMT:" <= line || "+CDS:" <= line || "+CBM:" <= line || "+CMTI:" <= line
  {
    assert SMS[0] == "+CMT:" && SMS[1] == "+CDS:" && SMS[2] == "+CBM:" && SMS[3] == "+CMTI:";
  }

  // ----- what should become of the lines of a stream -------------------------

  /** The lines that reach the channel, those handed over in pairs, and an
      announcement at the end whose second line never came. */
  function Plain(lines: seq<string>): seq<string>
  {
    if lines == [] then []
    else if !IsSms(lines[0]) then [lines[0]] + Plain(lines[1..])
    else if |lines| == 1 then [] else Plain(lines[2..])
  }

  function Pairs(lines: seq<string>): seq<string>
  {
    if lines == [] then []
    else if !IsSms(lines[0]) then Pairs(lines[1..])
    else if |lines| == 1 then [] else [lines[0], lines[1]] + Pairs(lines[2..])
  }

  function Widowed(lines: seq<string>): seq<string>
  {
    if lines == [] then []
    else if !IsSms(lines[0]) then Widowed(lines[1..])
    else if |lines| == 1 then lines else Widowed(lines[2..])
  }

  /** Every line is one of the three, once. */
  ghost predicate Paired(lines: seq<string>)
  {
    multiset(lines) == multiset(Plain(lines)) + multiset(Pairs(lines)) + multiset(Widowed(lines))
  }

  lemma {:induction false} PairedPlain(lines: seq<string>, rest: seq<string>)
    requires lines != [] && !IsSms(lines[0]) && rest == lines[1..] && Paired(rest)
    ensures Paired(lines)
  {
    assert lines == [lines[0]] + rest;
    InFront([lines[0]], rest, Plain(rest), Pairs(rest), Widowed(rest));
  }

  lemma {:induction false} PairedSms(lines: seq<string>, rest: seq<string>)
    requires |lines| > 1 && IsSms(lines[0]) && rest == lines[2..] && Paired(rest)
    ensures Paired(lines)
  {
    assert lines == [lines[0], lines[1]] + rest;
    InFront([lines[0], lines[1]], rest, Plain(rest), Pairs(rest), Widowed(rest));
  }

  lemma {:induction false} PairingBalances(lines: seq<string>)
    ensures Paired(lines)
  {
    if lines != [] && !IsSms(lines[0]) {
      PairingBalances(lines[1..]);
      PairedPlain(lines, lines[1..]);
    } else if |lines| > 1 {
      PairingBalances(lines[2..]);
      PairedSms(lines, lines[2..]);
    }
  }

  lemma {:induction false} InFront(a: seq<string>, rest: seq<string>, p: seq<string>, q: seq<string>, w: seq<string>)
    requires multiset(rest) == multiset(p) + multiset(q) + multiset(w)
    ensures multiset(a + rest) == multiset(a + p) + multiset(q) + multiset(w)
    ensures multiset(a + rest) == multiset(p) + multiset(a + q) + multiset(w)
  {
  }

  // ----- both threads --------------------------------------------------------

  /** Whose turn it is: the reader's, or the issuing thread's with what it does. */
  datatype Turn = Reads | Does(e: Event)

  predicate IssuerEvent(e: Event)
  {
    e.Issue? || e.SetRaw? || e.Wake? || e.Timeout?
  }

  predicate Issuers(script: seq<Turn>)
  {
    forall i :: 0 <= i < |script| && script[i].Does? ==> IssuerEvent(script[i].e)
  }

  /** How often the reader gets its turn. */
  function Count(script: seq<Turn>): nat
  {
    if script == [] then 0 else (if script[0].Reads? then 1 else 0) + Count(script[1..])
  }

  /** One pass of readerLoop: the event it makes, if any, and the lines still to come;
      None when the loop has ended. */
  datatype Pass = Pass(event: Option<Event>, left: Option<seq<string>>)

  /** At its end the channel is closed, if a callback is registered for that. */
  function Ended(callback: bool): Pass
  {
    Pass(if callback then Some(Close) else None, None)
  }

  function ReaderPass(lines: seq<string>, callback: bool): Pass
  {
    if lines == [] then Ended(callback)
    else if !IsSms(lines[0]) then Pass(Some(Line(lines[0])), Some(lines[1..]))
    else if |lines| == 1 then Ended(callback)
    else Pass(Some(SmsLines(lines[0], lines[1])), Some(lines[2..]))
  }

  function Events(e: Option<Event>): seq<Event>
  {
    if e.Some? then [e.value] else []
  }

  /** The events of a script over the lines still to come. */
  function Weave(script: seq<Turn>, lines: Option<seq<string>>, callback: bool): seq<Event>
  {
    if script == [] then []
    else if script[0].Does? then [script[0].e] + Weave(script[1..], lines, callback)
    else if lines.None? then Weave(script[1..], None, callback)
    else
      var p := ReaderPass(lines.value, callback);
      Events(p.event) + Weave(script[1..], p.left, callback)
  }

  /** The lines handed to the handler in pairs. */
  function Announced(evs: seq<Event>): seq<string>
    decreases |evs|
  {
    if evs == [] then []
    else
      var n := |evs| - 1;
      Announced(evs[..n]) + if evs[n].SmsLines? then [evs[n].line1, evs[n].line2] else []
  }

  lemma {:induction false} ProcessedLast(evs: seq<Event>, e: Event)
    ensures Processed(evs + [e]) == Processed(evs) + (if e.Line? then [e.line] else [])
    ensures Announced(evs + [e]) == Announced(evs) + (if e.SmsLines? then [e.line1, e.line2] else [])
  {
    assert (evs + [e])[..|evs|] == evs;
  }

  lemma {:induction false} Associates(a: seq<string>, b: seq<string>, c: seq<string>)
    ensures a + b + c == a + (b + c)
  {
  }

  lemma {:induction false} ProcessedFirst(e: Event, evs: seq<Event>)
    ensures Processed([e] + evs) == (if e.Line? then [e.line] else []) + Processed(evs)
    ensures Announced([e] + evs) == (if e.SmsLines? then [e.line1, e.line2] else []) + Announced(evs)
    decreases |evs|
  {
    if evs == [] {
      assert [e] + evs == evs + [e];
      ProcessedLast(evs, e);
    } else {
      var n := |evs| - 1;
      var front, last := evs[..n], evs[n];
      ProcessedFirst(e, front);
      assert [e] + evs == [e] + front + [last] && evs == front + [last];
      ProcessedLast([e] + front, last);
      ProcessedLast(front, last);
      Associates(if e.Line? then [e.line] else [], Processed(front), if last.Line? then [last.line] else []);
      Associates(if e.SmsLines? then [e.line1, e.line2] else [], Announced(front),
                 if last.SmsLines? then [last.line1, last.line2] else []);
    }
  }

  lemma {:induction false} NoneProcessed(e: Option<Event>, evs: seq<Event>)
    ensures e.None? ==> Events(e) + evs == evs
  {
  }

  /** A reader that has ended adds nothing. */
  lemma {:induction false} NothingMore(script: seq<Turn>, callback: bool)
    requires Issuers(script)
    ensures Processed(Weave(script, None, callback)) == [] && Announced(Weave(script, None, callback)) == []
  {
    if script != [] {
      NothingMore(script[1..], callback);
      if script[0].Does? {
        ProcessedFirst(script[0].e, Weave(script[1..], None, callback));
      }
    }
  }

  /** Which lines are processed and which are paired, if the reader gets as far as the
      end of the stream, whatever the other thread does in between. */
  lemma {:induction false} WeaveReadsAll(script: seq<Turn>, lines: seq<string>, callback: bool)
    requires Issuers(script) && Count(script) > |lines|
    ensures Processed(Weave(script, Some(lines), callback)) == Plain(lines)
    ensures Announced(Weave(script, Some(lines), callback)) == Pairs(lines)
    decreases |script|
  {
    var rest := script[1..];
    if script[0].Does? {
      WeaveReadsAll(rest, lines, callback);
      ProcessedFirst(script[0].e, Weave(rest, Some(lines), callback));
    } else {
      var p := ReaderPass(lines, callback);
      if p.left.None? {
        NothingMore(rest, callback);
      } else {
        WeaveReadsAll(rest, p.left.value, callback);
      }
      NoneProcessed(p.event, Weave(rest, p.left, callback));
      if p.event.Some? {
        ProcessedFirst(p.event.value, Weave(rest, p.left, callback));
      }
    }
  }

  /** The end of the stream closes the channel, exactly if a callback is registered. */
  lemma {:induction false} EndCloses(script: seq<Turn>, lines: seq<string>, callback: bool)
    requires Issuers(script) && Count(script) > |lines|
    ensures Close in Weave(script, Some(lines), callback) <==> callback
    decreases |script|
  {
    var rest := script[1..];
    if script[0].Does? {
      EndCloses(rest, lines, callback);
      assert IssuerEvent(script[0].e);
    } else {
      var p := ReaderPass(lines, callback);
      if p.left.None? {
        NoCloseLeft(rest, callback);
      } else {
        EndCloses(rest, p.left.value, callback);
      }
    }
  }

  lemma {:induction false} NoCloseLeft(script: seq<Turn>, callback: bool)
    requires Issuers(script)
    ensures Close !in Weave(script, None, callback)
  {
    if script != [] {
      NoCloseLeft(script[1..], callback);
      if script[0].Does? {
        assert IssuerEvent(script[0].e);
      }
    }
  }

  /** Nothing else is ever processed. */
  lemma {:induction false} OnlyPlainLines(script: seq<Turn>, lines: Option<seq<string>>, callback: bool, e: Event)
    requires Issuers(script) && e in Weave(script, lines, callback)
    ensures e.Line? ==> lines.Some? && e.line in Plain(lines.value)
    ensures e.Line? || e.SmsLines? || e == Close || IssuerEvent(e)
    decreases |script|
  {
    var rest := script[1..];
    if script[0].Does? {
      if e != script[0].e {
        OnlyPlainLines(rest, lines, callback, e);
      }
    } else if lines.None? {
      OnlyPlainLines(rest, None, callback, e);
    } else {
      var p := ReaderPass(lines.value, callback);
      if e !in Events(p.event) {
        OnlyPlainLines(rest, p.left, callback, e);
      }
    }
  }

  /** The lines of a stream against where they are after the events `evs`. */
  ghost predicate Balanced(lines: seq<string>, t: Channel, evs: seq<Event>)
    requires Possible(IDLE, evs)
  {
    multiset(lines) ==
      multiset(t.log.unsolicited) + multiset(t.log.trigger) + multiset(Stored(t, t.next))
      + multiset(Lost(Installs(IDLE, evs))) + multiset(Announced(evs)) + multiset(Widowed(lines))
  }

  /** Conservation from bytes to commands: when the reader has read the stream to its
      end, each line of it went to the handler, alone or in a pair, made the reader send
      data, is held by a response, was overwritten, or was an announcement alone. */
  lemma {:induction false} StreamIsConserved(script: seq<Turn>, lines: seq<string>, callback: bool)
    requires Issuers(script) && Count(script) > |lines|
    requires Possible(IDLE, Weave(script, Some(lines), callback))
    ensures var evs := Weave(script, Some(lines), callback); Balanced(lines, After(IDLE, evs), evs)
  {
    var evs := Weave(script, Some(lines), callback);
    WeaveReadsAll(script, lines, callback);
    PairingBalances(lines);
    LinesAreConserved(IDLE, evs);
  }

  // ----- final lines that nobody hears ---------------------------------------

  /** No response has a final line, and commands end by a timeout or a failed write. */
  predicate Unheard(c: Channel)
  {
    && !c.closed && (c.slot.Some? ==> c.slot.value.final.None?)
    && forall k :: 0 <= k < |c.out| ==> c.out[k].err == TimedOut || c.out[k].err == Generic
  }

  lemma {:induction false} StepKeepsUnheard(c: Channel, e: Event)
    requires SlotMatchesIssuer(c) && Unheard(c) && Enabled(c, e)
    requires e != Close && e != Open && !(e.Line? && IsFinal(e.line))
    ensures Unheard(Step(c, e)) && e != Wake
  {
    ConnectIsFinal();
  }

  lemma {:induction false} RunIsUnheard(c: Channel, evs: seq<Event>)
    requires Init(c) && !c.closed && Possible(c, evs)
    requires forall e :: e in evs ==> e != Close && e != Open && !(e.Line? && IsFinal(e.line))
    ensures Unheard(After(c, evs)) && Wake !in evs
    decreases |evs|
  {
    if evs != [] {
      var n := |evs| - 1;
      assert forall e :: e in evs[..n] ==> e in evs;
      RunIsUnheard(c, evs[..n]);
      RunKeepsSlot(c, evs[..n]);
      assert evs[n] in evs;
      StepKeepsUnheard(After(c, evs[..n]), evs[n]);
      assert evs == evs[..n] + [evs[n]];
    }
  }

  /** If every final line of a stream comes right behind an SMS announcement, the
      handler gets it, and no command of any run does anything but time out, unless
      it could not be written; as long as the channel is not closed. */
  lemma {:induction false} FinalBehindSmsIsUnheard(script: seq<Turn>, lines: seq<string>, callback: bool)
    requires Issuers(script) && forall l :: l in Plain(lines) ==> !IsFinal(l)
    requires var evs := Weave(script, Some(lines), callback); Possible(IDLE, evs) && Close !in evs
    ensures Unheard(After(IDLE, Weave(script, Some(lines), callback)))
    ensures Wake !in Weave(script, Some(lines), callback)
  {
    var evs := Weave(script, Some(lines), callback);
    forall e | e in evs
      ensures e != Close && e != Open && !(e.Line? && IsFinal(e.line))
    {
      OnlyPlainLines(script, Some(lines), callback, e);
    }
    RunIsUnheard(IDLE, evs);
  }

  /** For instance the answer to a command that comes right behind an announcement. */
  lemma {:induction false} AnswerSwallowed(announcement: string, final: string)
    requires IsSms(announcement)
    ensures Plain([announcement, final]) == [] && Pairs([announcement, final]) == [announcement, final]
  {
    assert [announcement, final][2..] == [];
  }

  // ----- as it runs ----------------------------------------------------------

  /** The next line of a stream that is read without loss. */
  method TakeNext(r: LineReader, ghost lines: seq<string>) returns (line: Option<string>)
    requires r.Valid() && Fits(r.Rest(), r.max) && NoPrompt(r.Rest()) && lines == Lines(r.Rest())
    modifies r, r.buf
    ensures line.None? <==> lines == []
    ensures line.Some? ==>
              && line.value == lines[0] && r.Valid() && Fits(r.Rest(), r.max) && NoPrompt(r.Rest())
              && Lines(r.Rest()) == lines[1..]
  {
    ghost var s := r.Rest();
    FittingSurvives(s, |r.Buffered()|, r.max);
    var l, _ := r.ReadLine();
    line := l;
    TakeLine(s, line, r.Rest(), [], lines);
    if line.Some? {
      RestIsShorter(s, line.value, r.Rest(), r.max);
      assert ([] + [line.value] + Lines(r.Rest()))[1..] == Lines(r.Rest());
    }
  }

  /** One pass of the reader loop over the bytes. */
  method ReadPass(r: LineReader, callback: bool, ghost lines: seq<string>) returns (event: Option<Event>, ended: bool)
    requires r.Valid() && Fits(r.Rest(), r.max) && NoPrompt(r.Rest()) && lines == Lines(r.Rest())
    modifies r, r.buf
    ensures event == ReaderPass(lines, callback).event && ended == ReaderPass(lines, callback).left.None?
    ensures !ended ==>
              && r.Valid() && Fits(r.Rest(), r.max) && NoPrompt(r.Rest())
              && Some(Lines(r.Rest())) == ReaderPass(lines, callback).left
  {
    var first := TakeNext(r, lines);
    if first.None? {
      return if callback then Some(Close) else None, true;
    }
    if !IsSms(first.value) {
      return Some(Line(first.value)), false;
    }
    var second := TakeNext(r, lines[1..]);
    if second.None? {
      return if callback then Some(Close) else None, true;
    }
    assert lines[1..][1..] == lines[2..];
    return Some(SmsLines(first.value, second.value)), false;
  }

  /** The next event of a possible run is enabled. */
  lemma {:induction false} NextEnabled(all: seq<Event>, done: seq<Event>, e: Event, rest: seq<Event>)
    requires Possible(IDLE, all) && all == done + ([e] + rest)
    ensures Possible(IDLE, done) && Enabled(After(IDLE, done), e)
    ensures Possible(IDLE, done + [e]) && After(IDLE, done + [e]) == Step(After(IDLE, done), e)
    ensures done + [e] + rest == all
  {
    PrefixPossible(IDLE, all, |done| + 1);
    assert all[..|done| + 1] == done + [e];
    assert (done + [e])[..|done|] == done;
  }

  /** A turn taken off a script. */
  lemma {:induction false} WeaveNext(script: seq<Turn>, i: nat, lines: Option<seq<string>>, callback: bool)
    requires i < |script|
    ensures var p := TurnPass(script[i], lines, callback);
            Weave(script[i..], lines, callback) == Events(p.event) + Weave(script[i + 1..], p.left, callback)
  {
    assert script[i..][0] == script[i] && script[i..][1..] == script[i + 1..];
  }

  /** The reader stands before the lines `left`, or has ended. */
  ghost predicate Ahead(r: LineReader, ended: bool, left: Option<seq<string>>)
    reads r, r.buf
  {
    if ended then left == None
    else r.Valid() && Fits(r.Rest(), r.max) && NoPrompt(r.Rest()) && left == Some(Lines(r.Rest()))
  }

  /** The pass a turn makes. */
  function TurnPass(turn: Turn, left: Option<seq<string>>, callback: bool): Pass
  {
    if turn.Does? then Pass(Some(turn.e), left)
    else if left.None? then Pass(None, None) else ReaderPass(left.value, callback)
  }

  /** What one turn does to the bytes. */
  method NextEvent(
      r: LineReader, turn: Turn, ended0: bool, callback: bool, ghost left: Option<seq<string>>, ghost pass: Pass)
    returns (event: Option<Event>, ended: bool)
    requires Ahead(r, ended0, left) && pass == TurnPass(turn, left, callback)
    modifies r, r.buf
    ensures event == pass.event && Ahead(r, ended, pass.left)
  {
    event, ended := None, ended0;
    if turn.Does? {
      event := Some(turn.e);
    } else if !ended {
      event, ended := ReadPass(r, callback, left.value);
    }
  }

  /** How far the run has come: `done` has happened, the script's rest is `rest`. */
  ghost predicate InRun(channel: AtChannel, done: seq<Event>, rest: seq<Event>, all: seq<Event>)
    reads channel, channel.slot, channel.Nodes()
  {
    && Possible(IDLE, all) && done + rest == all
    && Possible(IDLE, done) && channel.Valid() && channel.Model() == After(IDLE, done)
  }

  /** The channel takes the next event of the run, if there is one. */
  method Feed(channel: AtChannel, event: Option<Event>, ghost done: seq<Event>, ghost rest: seq<Event>, ghost all: seq<Event>)
    requires InRun(channel, done, Events(event) + rest, all)
    modifies channel, channel.slot, channel.Nodes()
    ensures InRun(channel, done + Events(event), rest, all)
    ensures channel.slot == null || channel.slot == old(channel.slot) || fresh(channel.slot)
    ensures forall n :: n in channel.Nodes() ==> n in old(channel.Nodes()) || fresh(n)
  {
    if event.Some? {
      NextEnabled(all, done, event.value, rest);
      channel.HandleEvent(event.value);
    } else {
      assert done + Events(event) == done && Events(event) + rest == rest;
    }
  }

  /** One turn of either thread, which makes the pass `pass`. */
  method TakeTurn(
      r: LineReader, channel: AtChannel, turn: Turn, ended0: bool, callback: bool, ghost left: Option<seq<string>>,
      ghost pass: Pass, ghost done: seq<Event>, ghost rest: seq<Event>, ghost all: seq<Event>)
    returns (ended: bool)
    requires Ahead(r, ended0, left) && pass == TurnPass(turn, left, callback)
    requires InRun(channel, done, Events(pass.event) + rest, all)
    modifies r, r.buf, channel, channel.slot, channel.Nodes()
    ensures Ahead(r, ended, pass.left) && InRun(channel, done + Events(pass.event), rest, all)
    ensures channel.slot == null || channel.slot == old(channel.slot) || fresh(channel.slot)
    ensures forall n :: n in channel.Nodes() ==> n in old(channel.Nodes()) || fresh(n)
  {
    var event;
    event, ended := NextEvent(r, turn, ended0, callback, left, pass);
    Feed(channel, event, done, rest, all);
  }

  /** Both threads over a byte stream, in any order the script says: the channel object
      ends in the protocol's state after the events that the stream's own lines make,
      and once the reader is through, every line of the stream is accounted for. */
  method RunSystem(capacity: nat, chunks: seq<string>, script: seq<Turn>, callback: bool) returns (channel: AtChannel)
    requires 0 < capacity && Deliverable(chunks) && Fits(Concat(chunks), capacity) && NoPrompt(Concat(chunks))
    requires Issuers(script) && Possible(IDLE, Weave(script, Some(Lines(Concat(chunks))), callback))
    ensures var lines := Lines(Concat(chunks));
            var evs := Weave(script, Some(lines), callback);
            && channel.Valid() && channel.Model() == After(IDLE, evs)
            && (Count(script) > |lines| ==> Balanced(lines, channel.Model(), evs))
  {
    var r := new LineReader(capacity, chunks);
    channel := new AtChannel();
    var ended := false;
    ghost var done: seq<Event>, left := [], Some(Lines(Concat(chunks)));
    ghost var all := Weave(script, left, callback);
    assert script[0..] == script && done + all == all;
    for i := 0 to |script|
      invariant fresh(channel) && (channel.slot == null || fresh(channel.slot))
      invariant forall n :: n in channel.Nodes() ==> fresh(n)
      invariant fresh(r) && fresh(r.buf) && Ahead(r, ended, left)
      invariant InRun(channel, done, Weave(script[i..], left, callback), all)
    {
      forall k | 0 <= k < |channel.Nodes()|
        ensures fresh(channel.Nodes()[k])
      {
        assert channel.Nodes()[k] in channel.Nodes();
      }
      WeaveNext(script, i, left, callback);
      ghost var pass := TurnPass(script[i], left, callback);
      ghost var rest := Weave(script[i + 1..], pass.left, callback);
      ended := TakeTurn(r, channel, script[i], ended, callback, left, pass, done, rest, all);
      left, done := pass.left, done + Events(pass.event);
    }
    assert script[|script|..] == [];
    assert done + [] == done;
    ghost var lines := Lines(Concat(chunks));
    if Count(script) > |lines| {
      StreamIsConserved(script, lines, callback);
    }
  }
}
