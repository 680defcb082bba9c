/** The AT channel protocol between the reader thread and the one thread that
    issues commands.  Each section under the command mutex is one atomic step. */
module AtProtocol {
  import opened Common

  datatype Kind = NoResult | Numeric | SingleLine | MultiLine

  /** A command: its text (NULL sends nothing), how its answer lines look, the SMS
      text for a prompt, whether the caller takes the response, and whether its
      wrapper insists on an intermediate line (single-line, numeric and SMS do). */
  datatype Command = Command(
    text: Option<string>, kind: Kind, prefix: string, sms: Option<string>, wants: bool, strict: bool)

  /** `lines` are the intermediate lines, newest first, as the list is built. */
  datatype Response = Response(id: nat, success: bool, final: Option<string>, lines: seq<string>)

  datatype Error = Ok | Generic | CommandPending | ChannelClosed | TimedOut | InvalidResponse

  /** What a command returned; the response's lines are in arrival order. */
  datatype Returned = Returned(err: Error, response: Option<Response>)

  /** What the reader did besides filling responses: the lines it called the
      unsolicited handler with, and those that made it send raw data or SMS text. */
  datatype Log = Log(unsolicited: seq<string>, trigger: seq<string>)

  /** `slot` is sp_response; `cmd` (type and prefix) and `sms` are only meaningful
      while it is set.  `waiting` says the issuer is blocked on the condition
      variable; `log`, `out` and `freed` record what happened so far, responses
      that were freed with the contents they had. */
  datatype Channel = Channel(
    closed: bool,
    waiting: bool,
    cmd: Command,
    sms: Option<string>,
    raw: Option<string>,
    slot: Option<Response>,
    next: nat,
    log: Log,
    out: seq<Returned>,
    freed: seq<Response>)

  // ----- line classes --------------------------------------------------------

  const FINAL_ERROR: seq<string> :=
    ["ERROR", "+CMS ERROR:", "+CME ERROR:", "NO CARRIER", "NO ANSWER", "NO DIALTONE", "COMMAND NOT SUPPORT"]

  const FINAL_SUCCESS: seq<string> := ["OK", "+QIND: \"FOTA\",\"END\",0", "CONNECT"]

  const CONNECT: string := "CONNECT"
  const PROMPT: string := "> "

  predicate StartsWithAny(line: string, prefixes: seq<string>)
  {
    exists i :: 0 <= i < |prefixes| && prefixes[i] <= line
  }

  predicate IsFinalSuccess(line: string)
  {
    StartsWithAny(line, FINAL_SUCCESS)
  }

  predicate IsFinalError(line: string)
  {
    StartsWithAny(line, FINAL_ERROR)
  }

  predicate IsFinal(line: string)
  {
    IsFinalSuccess(line) || IsFinalError(line)
  }

  /** The line looks like an intermediate answer to such a command. */
  predicate Matches(kind: Kind, prefix: string, line: string)
  {
    match kind
    case NoResult => false
    case Numeric => line != [] && IsDigit(line[0])
    case SingleLine => prefix <= line
    case MultiLine => prefix <= line
  }

  // ----- reader steps --------------------------------------------------------

  /** What a line may touch: the pending response's contents, the two one-shot
      triggers and the record of where lines went. */
  predicate OnlyReads(c: Channel, t: Channel)
  {
    && t == c.(slot := t.slot, raw := t.raw, sms := t.sms, log := t.log)
    && (t.slot.Some? <==> c.slot.Some?)
    && (c.slot.Some? ==> t.slot.value.id == c.slot.value.id)
  }

  function AddIntermediate(c: Channel, line: string): (t: Channel)
    requires c.slot.Some?
    ensures OnlyReads(c, t)
  {
    c.(slot := Some(c.slot.value.(lines := [line] + c.slot.value.lines)))
  }

  function SetFinal(c: Channel, line: string, success: bool): (t: Channel)
    requires c.slot.Some?
    ensures OnlyReads(c, t)
  {
    c.(slot := Some(c.slot.value.(success := success, final := Some(line))))
  }

  function Unsolicited(c: Channel, line: string): (t: Channel)
    ensures OnlyReads(c, t)
  {
    c.(log := c.log.(unsolicited := c.log.unsolicited + [line]))
  }

  /** The line made the reader send the raw data or the SMS text. */
  function Triggered(c: Channel, line: string): (t: Channel)
    ensures OnlyReads(c, t)
  {
    c.(log := c.log.(trigger := c.log.trigger + [line]))
  }

  /** The switch on the command's type, for a line that is nothing special. */
  function OnPlainLine(c: Channel, line: string): (t: Channel)
    requires c.slot.Some?
    ensures OnlyReads(c, t)
  {
    match c.cmd.kind
    case NoResult => Unsolicited(c, line)
    case MultiLine => if c.cmd.prefix <= line then AddIntermediate(c, line) else Unsolicited(c, line)
    case SingleLine =>
      if c.slot.value.lines == [] && c.cmd.prefix <= line then AddIntermediate(c, line) else Unsolicited(c, line)
    case Numeric =>
      if c.slot.value.lines == [] && line != [] && IsDigit(line[0])
      then AddIntermediate(c, line) else Unsolicited(c, line)
  }

  /** processLine. */
  function OnLine(c: Channel, line: string): (t: Channel)
    ensures OnlyReads(c, t)
  {
    if c.slot.None? then Unsolicited(c, line)
    else if c.raw.Some? && line == CONNECT then Triggered(c.(raw := None), line)
    else if IsFinalSuccess(line) then SetFinal(c, line, true)
    else if IsFinalError(line) then SetFinal(c, line, false)
    else if c.sms.Some? && line == PROMPT then Triggered(c.(sms := None), line)
    else OnPlainLine(c, line)
  }

  // ----- issuer steps --------------------------------------------------------

  /** clearPendingCommand. */
  function Clear(c: Channel): Channel
  {
    c.(slot := None, sms := None, waiting := false,
       freed := if c.slot.Some? then c.freed + [c.slot.value] else c.freed)
  }

  function Fail(c: Channel, err: Error): Channel
  {
    Clear(c).(out := c.out + [Returned(err, None)])
  }

  /** Leaving the wait loop with a final response or a closed channel: free or
      hand over the response, then the wrapper's check. */
  function Finish(c: Channel): Channel
    requires c.slot.Some?
  {
    var r := c.slot.value.(lines := Reversed(c.slot.value.lines));
    var err := if c.closed then ChannelClosed else Ok;
    if !c.cmd.wants then Fail(c, err)
    else if err == Ok && c.cmd.strict && r.success && r.lines == [] then Fail(c, InvalidResponse)
    else Clear(c.(slot := None)).(out := c.out + [Returned(err, Some(r))])
  }

  /** A fresh response in the slot, expecting what `cmd` expects. */
  function Installed(c: Channel, cmd: Command): Channel
  {
    c.(cmd := cmd, sms := cmd.sms,
       slot := Some(Response(c.next, false, None, [])), next := c.next + 1)
  }

  /** at_send_command_full_nolock up to the wait; `wrote` tells whether the write
      of the command text succeeds. */
  function OnIssue(c: Channel, cmd: Command, wrote: bool): Channel
  {
    if c.slot.Some? then Fail(c, CommandPending)
    else if cmd.text.Some? && c.closed then Fail(c, ChannelClosed)
    else if cmd.text.Some? && !wrote then Fail(c, Generic)
    else if c.closed then Finish(Installed(c, cmd))
    else Installed(c, cmd).(waiting := true)
  }

  datatype Event =
    | Line(line: string)
    | SmsLines(line1: string, line2: string)
    | SetRaw(data: string)
    | Issue(cmd: Command, wrote: bool)
    | Wake
    | Timeout
    | Close
    | Open

  /** One issuing thread: it issues, sets raw data or reopens only when it is not
      waiting.  A timed wait may also expire although a final response is there. */
  predicate Enabled(c: Channel, e: Event)
  {
    match e
    case Issue(_, _) => !c.waiting
    case SetRaw(_) => !c.waiting
    case Open => !c.waiting
    case Wake => c.waiting && c.slot.Some? && (c.slot.value.final.Some? || c.closed)
    case Timeout => c.waiting
    case _ => true
  }

  function Step(c: Channel, e: Event): Channel
    requires Enabled(c, e)
  {
    match e
    case Line(line) => OnLine(c, line)
    case SmsLines(_, _) => c
    case SetRaw(data) => c.(raw := Some(data))
    case Issue(cmd, wrote) => OnIssue(c, cmd, wrote)
    case Wake => Finish(c)
    case Timeout => Fail(c, TimedOut)
    case Close => c.(closed := true)
    case Open => c.(closed := false, slot := None, sms := None)
  }

  predicate Init(c: Channel)
  {
    && !c.waiting && c.slot.None? && c.sms.None? && c.raw.None? && c.next == 0
    && c.log == Log([], []) && c.out == [] && c.freed == []
  }

  predicate Possible(c: Channel, evs: seq<Event>)
    decreases |evs|, 0
  {
    evs == [] ||
    (var n := |evs| - 1; Possible(c, evs[..n]) && Enabled(After(c, evs[..n]), evs[n]))
  }

  function After(c: Channel, evs: seq<Event>): Channel
    requires Possible(c, evs)
    decreases |evs|, 1
  {
    if evs == [] then c
    else
      var n := |evs| - 1;
      Step(After(c, evs[..n]), evs[n])
  }
}
