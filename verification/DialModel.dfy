/** The value model of the dial loop of the connection manager (qmi_main): one
    state record, one event type that carries every answer the modem and the
    clock give, and the transition each event makes. */
module DialModel {
  import opened Common

  /** Connection status byte of one IP family; Other(0) is the "unknown" start value. */
  datatype Status = Disconnected | Connected | Other(code: nat)

  const UNKNOWN: Status := Other(0)

  /** Signals written to and read from the loop's control socket, in FIFO order. */
  datatype Signal = Start | Check | Stop

  /** Which request table the modem's mode selected. */
  datatype Ops = Qmi | Mbim | Atc

  /** What does not change during one run of the loop.  `credentials` says that
      a non-empty user and a non-empty password are configured. */
  datatype Config = Config(v4: bool, v6: bool, ops: Ops, credentials: bool)

  /** Answer to an IP address request: error or not, and the address the profile
      holds afterwards. */
  datatype IpAnswer = IpAnswer(ok: bool, address: nat)

  /** Everything a signal handler may be told by the outside while it runs.
      `now` is the first clock reading, `later` a second one taken after the
      first (and after the modem calls, when there are any). */
  datatype Answers = Answers(
    now: nat, later: nat,
    setup4: int, retry4: int, dialIp4: IpAnswer,
    setup6: int, dialIp6Ok: bool,
    attach: nat,
    query4: Option<Status>, freshIp4: IpAnswer, leasedIp4: nat, verifyIp4: IpAnswer,
    query6: Option<Status>)

  datatype Event =
    | ReadSignal(a: Answers)
    | PollTimeout
    | AlarmFires
    | StopRequested
    | NetworkChanged(attach: nat, at: nat)
    | CallListChanged(at: nat)
    | LoopbackChanged(loopback: nat)
    | Quit

  /** `clock` is the last reading of the monotone clock; `alarm` is the number of
      seconds the pending alarm was set to, 0 if none is pending; `dhcp` says
      whether the DHCP client was last started. */
  datatype State = State(
    running: bool,
    clock: nat,
    attach: nat,
    v4: Status,
    v6: Status,
    fails: nat,
    allowAt: nat,
    queue: seq<Signal>,
    alarm: nat,
    loopback: nat,
    auth: int,
    ip4: nat,
    link: int,
    dhcp: bool)

  const ULONG_RANGE: nat := 0x1_0000_0000_0000_0000
  const UINT_RANGE: nat := 0x1_0000_0000

  const LINK_V4: int := 16
  const LINK_V6: int := 64

  /** Seconds passed to alarm() when a dial is deferred: the subtraction is done
      on unsigned long and the result is truncated to unsigned int. */
  function AlarmSeconds(allowAt: nat, later: nat): nat
  {
    (allowAt - later + 999) % ULONG_RANGE / 1000 % UINT_RANGE
  }

  /** Pause, in seconds, after the failed dial that was preceded by `fails` others. */
  function Backoff(fails: nat): nat
  {
    if fails == 0 then 5
    else if fails == 1 then 10
    else if fails == 2 then 20
    else if fails == 3 then 40
    else 60
  }

  /** An enabled IP family is known to be down. */
  predicate Down(c: Config, s: State)
  {
    (c.v4 && s.v4 == Disconnected) || (c.v6 && s.v6 == Disconnected)
  }

  /** Dialing is pointless: the modem is not attached and loopback is off. */
  predicate Unattached(s: State)
  {
    s.attach != 1 && s.loopback == 0
  }

  /** In the non-QMI modes the IPv6 status simply follows IPv4. */
  predicate V6FollowsV4(c: Config)
  {
    c.v4 && c.ops != Qmi
  }

  function LinkMask(up4: bool, up6: bool): int
  {
    (if up4 then LINK_V4 else 0) + (if up6 then LINK_V6 else 0)
  }

  /** Whether the IPv4 bit is set in a link value; the initial -1 has all bits set. */
  predicate HasV4(link: int)
  {
    link / LINK_V4 % 2 == 1
  }

  function Send(s: State, signal: Signal): State
  {
    s.(queue := s.queue + [signal])
  }

  /** usbnet_link_change. */
  function LinkChange(s: State, link: int): (t: State)
    ensures t == s.(link := link, ip4 := t.ip4, dhcp := t.dhcp)
  {
    if s.link == link then s
    else s.(link := link, ip4 := if HasV4(link) then s.ip4 else 0, dhcp := link != 0)
  }

  // ----- START ---------------------------------------------------------------

  /** First try, then, with credentials, one retry under the other auth mode. */
  function SetupResult(c: Config, a: Answers): int
  {
    if a.setup4 > 0 && c.credentials then a.retry4 else a.setup4
  }

  function SetupAuth(c: Config, s: State, a: Answers): int
  {
    if a.setup4 > 0 && c.credentials && a.retry4 == 0 then (if s.auth == 1 then 2 else 1)
    else s.auth
  }

  function Dial4(c: Config, s: State, a: Answers): (t: State)
    ensures t == s.(v4 := t.v4, ip4 := t.ip4, auth := t.auth)
  {
    if c.v4 && s.v4 != Connected then
      var s1 := s.(auth := SetupAuth(c, s, a));
      if SetupResult(c, a) != 0 then s1
      else s1.(ip4 := a.dialIp4.address, v4 := if a.dialIp4.ok then Connected else s1.v4)
    else s
  }

  function Dial6(c: Config, s: State, a: Answers): (t: State)
    ensures t == s.(v6 := t.v6)
  {
    if c.v6 && s.v6 != Connected then
      if V6FollowsV4(c) then s.(v6 := s.v4)
      else if a.setup6 == 0 && a.dialIp6Ok then s.(v6 := Connected)
      else s
    else s
  }

  function AfterDial(c: Config, s: State, a: Answers): State
  {
    if Down(c, s) then
      s.(allowAt := Backoff(s.fails) * 1000 + a.later, fails := s.fails + 1, alarm := Backoff(s.fails))
    else if s.v4 == Connected || s.v6 == Connected then
      s.(fails := 0, allowAt := a.later)
    else s
  }

  /** The guards of START let the dial code run. */
  predicate DialAllowed(s: State, a: Answers)
  {
    !Unattached(s) && s.allowAt <= a.now
  }

  function OnStart(c: Config, s: State, a: Answers): State
  {
    if Unattached(s) then s
    else if s.allowAt > a.now then s.(alarm := AlarmSeconds(s.allowAt, a.later))
    else AfterDial(c, Dial6(c, Dial4(c, s, a), a), a)
  }

  // ----- CHECK ---------------------------------------------------------------

  /** check_ipv4_address: the profile's address (or, over AT, the leased one)
      still is what the modem reports.  Also gives the address kept afterwards. */
  function SameAddress(c: Config, s: State, a: Answers): (bool, nat)
  {
    if c.ops == Mbim then (true, s.ip4)
    else if c.ops == Atc && a.leasedIp4 == 0 then (true, s.ip4)
    else
      var old4 := if c.ops == Atc then a.leasedIp4 else s.ip4;
      (a.verifyIp4.ok && a.verifyIp4.address == old4, a.verifyIp4.address)
  }

  /** The status the IPv4 query leaves, and the address request for a call that
      is up without an address. */
  function Queried4(s: State, st: Status, a: Answers): (t: State)
    ensures t == s.(v4 := t.v4, ip4 := t.ip4)
  {
    if st == Connected && s.ip4 == 0 then
      s.(ip4 := a.freshIp4.address, v4 := if a.freshIp4.ok then Connected else Disconnected)
    else s.(v4 := st)
  }

  /** A connected call whose address no longer matches is taken down. */
  function Verified4(c: Config, s: State, a: Answers): (t: State)
    ensures t == s.(v4 := t.v4, ip4 := t.ip4)
  {
    if s.v4 == Connected then
      var (same, ip) := SameAddress(c, s, a);
      s.(ip4 := ip, v4 := if same then Connected else Disconnected)
    else s
  }

  function Check4(c: Config, s: State, a: Answers): (t: State)
    ensures t == s.(v4 := t.v4, ip4 := t.ip4)
  {
    if c.v4 && s.v4 != Disconnected && a.query4.Some? then
      Verified4(c, Queried4(s, a.query4.value, a), a)
    else s.(v4 := Disconnected)
  }

  function Check6(c: Config, s: State, a: Answers): (t: State)
    ensures t == s.(v6 := t.v6)
  {
    if c.v6 && s.v6 != Disconnected then
      if V6FollowsV4(c) then s.(v6 := s.v4)
      else if a.query6.Some? then s.(v6 := a.query6.value)
      else s
    else s.(v6 := Disconnected)
  }

  function UpdateLink(s: State): (t: State)
    ensures t == s.(link := t.link, ip4 := t.ip4, dhcp := t.dhcp)
  {
    if s.v4 == Disconnected && s.v6 == Disconnected then LinkChange(s, 0)
    else if s.v4 == Connected || s.v6 == Connected then
      LinkChange(s, LinkMask(s.v4 == Connected, s.v6 == Connected))
    else s
  }

  function Registered(s: State, a: Answers): State
  {
    if s.attach != 1 then s.(attach := a.attach) else s
  }

  function OnCheck(c: Config, s: State, a: Answers): State
  {
    var t := UpdateLink(Check6(c, Check4(c, Registered(s, a), a), a));
    if Down(c, t) then Send(t, Start) else t
  }

  // ----- the loop ------------------------------------------------------------

  function Leave(s: State): State
  {
    LinkChange(s, 0).(running := false)
  }

  /** Reading a signal takes it off the queue and cancels the alarm. */
  function Taken(s: State, a: Answers): State
    requires s.queue != []
  {
    s.(queue := s.queue[1..], alarm := 0, clock := a.later)
  }

  function OnSignal(c: Config, s: State, a: Answers): State
    requires s.queue != []
  {
    match s.queue[0]
    case Start => OnStart(c, Taken(s, a), a)
    case Check => OnCheck(c, Taken(s, a), a)
    case Stop => Leave(Taken(s, a))
  }

  function OnNetworkChanged(c: Config, s: State, attach: nat, at: nat): State
  {
    var s1 := s.(attach := attach, clock := at);
    if attach == 1 then (if Down(c, s1) then Send(s1, Start) else s1)
    else s1.(allowAt := at)
  }

  function OnCallListChanged(s: State, at: nat): State
  {
    var s1 := if s.v4 == Connected || s.v6 == Connected
              then s.(allowAt := at + 1000, clock := at) else s.(clock := at);
    Send(s1, Check)
  }

  function OnLoopback(s: State, loopback: nat): State
  {
    var s1 := s.(loopback := loopback);
    if loopback != 0 then Send(s1, Start) else s1
  }

  /** The two clock readings of one handler are less than 34 years apart. */
  const LONG_AGO: nat := 0x100_0000_0000

  /** An event can happen: the loop runs, there is a signal to read, an alarm to
      fire, and the clock does not go back. */
  predicate Enabled(s: State, e: Event)
  {
    s.running &&
    match e
    case ReadSignal(a) => s.queue != [] && s.clock <= a.now <= a.later < a.now + LONG_AGO
    case PollTimeout => s.queue == []
    case AlarmFires => s.alarm != 0
    case NetworkChanged(_, at) => s.clock <= at
    case CallListChanged(at) => s.clock <= at
    case _ => true
  }

  function Step(c: Config, s: State, e: Event): State
    requires Enabled(s, e)
  {
    match e
    case ReadSignal(a) => OnSignal(c, s, a)
    case PollTimeout => Send(s, Check)
    case AlarmFires => Send(s.(alarm := 0), Start)
    case StopRequested => Send(s, Stop)
    case NetworkChanged(attach, at) => OnNetworkChanged(c, s, attach, at)
    case CallListChanged(at) => OnCallListChanged(s, at)
    case LoopbackChanged(loopback) => OnLoopback(s, loopback)
    case Quit => Leave(s)
  }

  /** How the loop is entered: one CHECK queued, no failure counted, dialing
      allowed at once, link never set in this process or taken down before. */
  predicate Init(c: Config, s: State)
  {
    && (c.v4 || c.v6)
    && s.running
    && s.queue == [Check]
    && ((c.ops == Atc && c.v4) || s.v4 == UNKNOWN)
    && s.v6 == UNKNOWN
    && s.fails == 0
    && s.allowAt <= s.clock
    && (s.link == -1 || s.link == 0)
    && !s.dhcp
  }

  /** `evs` is a possible sequence of events from `s`. */
  predicate Possible(c: Config, s: State, evs: seq<Event>)
    decreases |evs|, 0
  {
    evs == [] ||
    (var n := |evs| - 1; Possible(c, s, evs[..n]) && Enabled(After(c, s, evs[..n]), evs[n]))
  }

  /** The state after a possible sequence of events. */
  function After(c: Config, s: State, evs: seq<Event>): State
    requires Possible(c, s, evs)
    decreases |evs|, 1
  {
    if evs == [] then s
    else
      var n := |evs| - 1;
      Step(c, After(c, s, evs[..n]), evs[n])
  }
}
