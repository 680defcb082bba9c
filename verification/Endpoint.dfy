/** The strings the gateway configuration keeps durations and server addresses
    in: `XhYmZs` and `host:port`, printed with to_string and read back with
    strtok and atoi. */
module Endpoint {
  import opened Common
  import opened AtTok

  const MAX_INT: int := 0x7FFF_FFFF
  const U32: int := 0x1_0000_0000

  // ----- decimal numbers -----------------------------------------------------

  function Digit(n: nat): (c: char)
    requires n < 10
    ensures IsDigit(c)
  {
    (48 + n) as char
  }

  /** to_string of an unsigned number. */
  function Digits(n: nat): (s: string)
    ensures s != [] && forall i :: 0 <= i < |s| ==> IsDigit(s[i])
  {
    if n < 10 then [Digit(n)] else Digits(n / 10) + [Digit(n % 10)]
  }

  function Number(n: nat, s: string): nat
    decreases |s|
  {
    if s == [] || !IsDigit(s[0]) then n else Number(n * 10 + (s[0] as int - 48), s[1..])
  }

  /** atoi; None where the value is no int, which C leaves undefined. */
  function Atoi(s: string): Option<int>
  {
    var t := SkipSpace(s);
    var minus := t != [] && t[0] == '-';
    var n: int := Number(0, if t != [] && (t[0] == '-' || t[0] == '+') then t[1..] else t);
    Int(if minus then -n else n)
  }

  function Int(n: int): (r: Option<int>)
    ensures r == Some(n) <==> -MAX_INT - 1 <= n <= MAX_INT
    ensures r.Some? ==> r.value == n
  {
    if -MAX_INT - 1 <= n <= MAX_INT then Some(n) else None
  }

  lemma {:induction false} NumberOfDigits(n: nat, u: string)
    ensures Number(0, Digits(n) + u) == Number(n, u)
  {
    if n < 10 {
      var s := [Digit(n)] + u;
      assert s[1..] == u;
    } else {
      var d := [Digit(n % 10)] + u;
      NumberOfDigits(n / 10, d);
      assert Digits(n) + u == Digits(n / 10) + d;
      assert d[1..] == u;
    }
  }

  /** atoi undoes to_string for every int. */
  lemma {:induction false} AtoiOfDigits(n: nat)
    ensures Atoi(Digits(n)) == Int(n)
  {
    NumberOfDigits(n, []);
    assert Digits(n) + [] == Digits(n);
    assert IsDigit(Digits(n)[0]) && SkipSpace(Digits(n)) == Digits(n);
  }

  // ----- strtok --------------------------------------------------------------

  datatype Piece = Piece(tok: string, rest: string)

  function SkipChar(s: string, d: char): string
  {
    if s != [] && s[0] == d then SkipChar(s[1..], d) else s
  }

  /** strtok with one delimiter: leading delimiters are skipped, None is NULL. */
  function Strtok(s: string, d: char): Option<Piece>
  {
    var t := SkipChar(s, d);
    if t == [] then None
    else
      var a := After(t, d);
      Some(Piece(Before(t, d), if a.Some? then a.value else []))
  }

  /** What C sees of a std::string: the part in front of its first NUL. */
  function CStr(s: string): (c: string)
    ensures NUL !in c
  {
    Before(s, NUL)
  }

  lemma {:induction false} WholeCStr(s: string)
    requires NUL !in s
    ensures CStr(s) == s
  {
    NoDelimiter(s, NUL);
  }

  /** The position strtok keeps between its calls. */
  class Tokenizer {
    var saved: string

    constructor ()
      ensures saved == []
    {
      saved := [];
    }

    /** A text is handed to strtok. */
    method Begin(text: string)
      modifies this
      ensures saved == CStr(text)
    {
      saved := CStr(text);
    }

    method Next(d: char) returns (tok: Option<string>)
      modifies this
      ensures match Strtok(old(saved), d)
              case None => tok == None && saved == []
              case Some(p) => tok == Some(p.tok) && saved == p.rest
    {
      var i, t := 0, saved;
      while t != [] && t[0] == d
        invariant SkipChar(t, d) == SkipChar(saved, d)
        decreases |t|
      {
        t := t[1..];
      }
      if t == [] {
        saved := [];
        return None;
      }
      while i < |t| && t[i] != d
        invariant 0 <= i <= |t| && forall k :: 0 <= k < i ==> t[k] != d
      {
        i := i + 1;
      }
      CutHere(t, d, i);
      tok := Some(t[..i]);
      saved := if i < |t| then t[i + 1..] else [];
    }
  }

  /** A token and the delimiter behind it. */
  lemma {:induction false} StrtokFirst(t: string, d: char, u: string)
    requires t != [] && d !in t
    ensures Strtok(t + [d] + u, d) == Some(Piece(t, u))
  {
    var s := t + [d] + u;
    assert s[0] == t[0] && SkipChar(s, d) == s;
    CutAtDelimiter(t, d, u);
  }

  lemma {:induction false} StrtokLast(t: string, d: char)
    requires t != [] && d !in t
    ensures Strtok(t, d) == Some(Piece(t, []))
  {
    assert t[0] in t;
    NoDelimiter(t, d);
  }

  // ----- durations -----------------------------------------------------------

  function Shown(n: nat, unit: char): string
  {
    Digits(n) + [unit]
  }

  /** parse_json_sec_to_string: hours only if there are any, minutes if there are
      minutes or hours. */
  function Duration(sec: nat): string
  {
    Parts(sec / 3600, sec % 3600 / 60, sec % 3600 % 60)
  }

  function Parts(hour: nat, min: nat, second: nat): string
  {
    if hour > 0 then Shown(hour, 'h') + Shown(min, 'm') + Shown(second, 's')
    else if min > 0 then Shown(min, 'm') + Shown(second, 's')
    else Shown(second, 's')
  }

  method PrintDuration(sec: nat) returns (output: string)
    ensures output == Duration(sec)
  {
    var hour, min, second := sec / 3600, sec % 3600 / 60, sec % 3600 % 60;
    output := [];
    var hasHour := false;
    if hour > 0 {
      output := Digits(hour) + ['h'];
      hasHour := true;
    }
    if min > 0 || hasHour {
      output := output + Digits(min) + ['m'];
    }
    output := output + Digits(second) + ['s'];
    assert hour > 0 ==> output == Shown(hour, 'h') + Shown(min, 'm') + Shown(second, 's');
    assert hour == 0 && min > 0 ==> output == Shown(min, 'm') + Shown(second, 's');
  }

  /** The running sum, strtok's position, and whether strtok has been called; or a
      NULL token or an int overflow, which C leaves undefined. */
  datatype Progress = Undefined | Progress(total: nat, saved: string, begun: bool)

  function ReadUnit(p: Progress, t: string, unit: char, factor: nat): Progress
  {
    if p.Undefined? || unit !in t then p
    else
      var piece := Strtok(Source(p, t), unit);
      if piece.None? then Undefined else Added(p.total, Atoi(piece.value.tok), factor, piece.value.rest)
  }

  /** The sum with one more number, if it and its product are ints. */
  function Added(total: nat, n: Option<int>, factor: nat, rest: string): Progress
  {
    if n.None? || Int(n.value * factor).None? then Undefined
    else Progress((total + n.value * factor) % U32, rest, true)
  }

  const NOTHING := Progress(0, [], false)

  function Seconds(t: string): Progress
  {
    ReadUnit(ReadUnit(ReadUnit(NOTHING, t, 'h', 3600), t, 'm', 60), t, 's', 1)
  }

  /** What is read next. */
  function Source(p: Progress, t: string): string
    requires p.Progress?
  {
    if p.begun then p.saved else CStr(t)
  }

  function Sum(total: nat, x: nat, rest: string): (r: Progress)
    ensures x <= MAX_INT && total + x < U32 ==> r == Progress(total + x, rest, true)
  {
    if x <= MAX_INT then Progress((total + x) % U32, rest, true) else Undefined
  }

  /** A product that is an int comes from an int. */
  lemma {:induction false} AddedIs(total: nat, n: nat, factor: nat, rest: string)
    requires factor > 0
    ensures Added(total, Int(n), factor, rest) == Sum(total, n * factor, rest)
  {
    Larger(n, factor);
  }

  lemma {:induction false} Larger(n: nat, factor: nat)
    requires factor > 0
    ensures n <= n * factor
  {
  }

  /** One unit that is there. */
  lemma {:induction false} ReadShown(p: Progress, t: string, unit: char, factor: nat, n: nat, u: string)
    requires p.Progress? && unit in t && !IsDigit(unit) && factor > 0 && Source(p, t) == Shown(n, unit) + u
    ensures ReadUnit(p, t, unit, factor) == Sum(p.total, n * factor, u)
  {
    ShownIsRead(n, unit, u);
    AddedIs(p.total, n, factor, u);
  }

  lemma {:induction false} ShownIsRead(n: nat, unit: char, u: string)
    requires !IsDigit(unit)
    ensures Strtok(Shown(n, unit) + u, unit) == Some(Piece(Digits(n), u)) && Atoi(Digits(n)) == Int(n)
  {
    StrtokFirst(Digits(n), unit, u);
    AtoiOfDigits(n);
  }

  lemma {:induction false} UnitIn(n: nat, unit: char, c: char)
    requires !IsDigit(c)
    ensures c in Shown(n, unit) <==> c == unit
  {
    var t := Shown(n, unit);
    assert t[|t| - 1] == unit;
  }

  /** Seconds alone, behind minutes, behind hours: what is left to read and what
      has been read. */
  lemma {:induction false} LastUnit(t: string, p: Progress, s: nat)
    requires s < 60 && 's' in t && p.Progress? && p.total + s < U32
    requires Source(p, t) == Shown(s, 's')
    ensures ReadUnit(p, t, 's', 1) == Progress(p.total + s, [], true)
  {
    assert Shown(s, 's') + [] == Shown(s, 's');
    ReadShown(p, t, 's', 1, s, []);
  }

  lemma {:induction false} MiddleUnit(t: string, p: Progress, m: nat, u: string)
    requires m < 60 && 'm' in t && p.Progress? && p.total + 60 * m < U32
    requires Source(p, t) == Shown(m, 'm') + u
    ensures ReadUnit(p, t, 'm', 60) == Progress(p.total + 60 * m, u, true)
  {
    ReadShown(p, t, 'm', 60, m, u);
  }

  lemma {:induction false} Absent(p: Progress, t: string, unit: char, factor: nat)
    requires unit !in t
    ensures ReadUnit(p, t, unit, factor) == p
  {
  }

  lemma {:induction false} Three(t: string, a: Progress, b: Progress, c: Progress)
    requires ReadUnit(NOTHING, t, 'h', 3600) == a && ReadUnit(a, t, 'm', 60) == b && ReadUnit(b, t, 's', 1) == c
    ensures Seconds(t) == c
  {
  }

  lemma {:induction false} SecondsOnly(s: nat)
    requires s < 60
    ensures Seconds(Shown(s, 's')) == Progress(s, [], true)
  {
    var t := Shown(s, 's');
    UnitIn(s, 's', 'h');
    UnitIn(s, 's', 'm');
    UnitIn(s, 's', 's');
    UnitIn(s, 's', NUL);
    WholeCStr(t);
    Absent(NOTHING, t, 'h', 3600);
    Absent(NOTHING, t, 'm', 60);
    LastUnit(t, NOTHING, s);
    Three(t, NOTHING, NOTHING, Progress(s, [], true));
  }

  lemma {:induction false} MinutesAndSeconds(m: nat, s: nat, u: string, t: string)
    requires m < 60 && s < 60 && u == Shown(s, 's') && t == Shown(m, 'm') + u
    requires 'h' !in t && 'm' in t && 's' in t && NUL !in t
    ensures Seconds(t) == Progress(60 * m + s, [], true)
  {
    WholeCStr(t);
    Absent(NOTHING, t, 'h', 3600);
    MiddleUnit(t, NOTHING, m, u);
    LastUnit(t, Progress(60 * m, u, true), s);
    Three(t, NOTHING, Progress(60 * m, u, true), Progress(60 * m + s, [], true));
  }

  lemma {:induction false} FirstUnit(t: string, h: nat, u: string)
    requires 3600 * h < U32 && 'h' in t && NUL !in t && t == Shown(h, 'h') + u
    ensures ReadUnit(NOTHING, t, 'h', 3600) == if 3600 * h <= MAX_INT then Progress(3600 * h, u, true) else Undefined
  {
    WholeCStr(t);
    ReadShown(NOTHING, t, 'h', 3600, h, u);
  }

  lemma {:induction false} AllThree(x: nat, m: nat, s: nat, v: string, u: string, t: string)
    requires m < 60 && s < 60 && x + 60 * m + s < U32
    requires v == Shown(s, 's') && u == Shown(m, 'm') + v && 'm' in t && 's' in t
    requires ReadUnit(NOTHING, t, 'h', 3600) == Progress(x, u, true)
    ensures Seconds(t) == Progress(x + 60 * m + s, [], true)
  {
    var a := Progress(x, u, true);
    var b := Progress(x + 60 * m, v, true);
    MiddleUnit(t, a, m, v);
    LastUnit(t, b, s);
    Three(t, a, b, Progress(x + 60 * m + s, [], true));
  }

  /** What hours, minutes and seconds read as. */
  ghost function Reading(hour: nat, min: nat, second: nat): Progress
  {
    if 3600 * hour <= MAX_INT then Progress(3600 * hour + 60 * min + second, [], true) else Undefined
  }

  lemma {:induction false} MinutesText(min: nat, second: nat, v: string, u: string)
    requires v == Shown(second, 's') && u == Shown(min, 'm') + v
    ensures 'h' !in u && 'm' in u && 's' in u && NUL !in u
  {
    UnitIn(second, 's', 'h');
    UnitIn(second, 's', 's');
    UnitIn(second, 's', NUL);
    UnitIn(min, 'm', 'h');
    UnitIn(min, 'm', 'm');
    UnitIn(min, 'm', NUL);
  }

  lemma {:induction false} HoursText(hour: nat, min: nat, second: nat, v: string, u: string, t: string)
    requires v == Shown(second, 's') && u == Shown(min, 'm') + v && t == Shown(hour, 'h') + u
    ensures 'h' in t && 'm' in t && 's' in t && NUL !in t
  {
    MinutesText(min, second, v, u);
    UnitIn(hour, 'h', 'h');
    UnitIn(hour, 'h', NUL);
  }

  lemma {:induction false} WithHours(hour: nat, min: nat, second: nat, v: string, u: string, t: string)
    requires min < 60 && second < 60 && 3600 * hour + 60 * min + second < U32
    requires v == Shown(second, 's') && u == Shown(min, 'm') + v && t == Shown(hour, 'h') + u
    ensures Seconds(t) == Reading(hour, min, second)
  {
    HoursText(hour, min, second, v, u, t);
    FirstUnit(t, hour, u);
    if 3600 * hour <= MAX_INT {
      AllThree(3600 * hour, min, second, v, u, t);
    } else {
      Three(t, Undefined, Undefined, Undefined);
    }
  }

  lemma {:induction false} WithMinutes(min: nat, second: nat, v: string, u: string)
    requires min < 60 && second < 60 && v == Shown(second, 's') && u == Shown(min, 'm') + v
    ensures Seconds(u) == Reading(0, min, second)
  {
    MinutesText(min, second, v, u);
    MinutesAndSeconds(min, second, v, u);
  }

  lemma {:induction false} DurationParts(hour: nat, min: nat, second: nat)
    requires min < 60 && second < 60 && 3600 * hour + 60 * min + second < U32
    ensures Seconds(Parts(hour, min, second)) == Reading(hour, min, second)
  {
    var v := Shown(second, 's');
    var u := Shown(min, 'm') + v;
    if hour > 0 {
      var t := Shown(hour, 'h') + u;
      assert t == Parts(hour, min, second);
      WithHours(hour, min, second, v, u, t);
    } else if min > 0 {
      WithMinutes(min, second, v, u);
    } else {
      SecondsOnly(second);
    }
  }

  /** Duration round trip, exactly: a printed 32-bit duration reads back as itself
      if and only if its hours, in seconds, fit an int, that is below 596524 hours;
      every value below 2^31 does. */
  lemma {:induction false} DurationRoundTrip(sec: nat)
    requires sec < 0x1_0000_0000
    ensures Seconds(Duration(sec)) == Progress(sec, [], true) <==> sec < 2147486400
    ensures sec < 0x8000_0000 ==> Seconds(Duration(sec)) == Progress(sec, [], true)
  {
    var hour, rest := sec / 3600, sec % 3600;
    DurationParts(hour, rest / 60, rest % 60);
    HoursFit(sec, hour, rest);
  }

  lemma {:induction false} HoursFit(sec: nat, hour: nat, rest: nat)
    requires sec == 3600 * hour + rest && rest < 3600
    ensures 3600 * hour <= MAX_INT <==> sec < 2147486400
    ensures Reading(hour, rest / 60, rest % 60) == if sec < 2147486400 then Progress(sec, [], true) else Undefined
  {
    assert 3600 * hour <= MAX_INT <==> hour <= 596523;
    assert rest == 60 * (rest / 60) + rest % 60;
  }

  /** One unit, if it occurs: the first time strtok starts on a copy of the text,
      later it goes on from where it stopped. */
  method TakeUnit(strtok: Tokenizer, p: Progress, t: string, unit: char, factor: nat) returns (r: Progress)
    requires p.Progress? ==> p.saved == strtok.saved
    modifies strtok
    ensures r == ReadUnit(p, t, unit, factor)
    ensures r.Progress? ==> r.saved == strtok.saved
  {
    if p.Undefined? || unit !in t {
      return p;
    }
    if !p.begun {
      strtok.Begin(t);
    }
    var tok := strtok.Next(unit);
    if tok.None? {
      return Undefined;
    }
    var n := Atoi(tok.value);
    if n.None? || Int(n.value * factor).None? {
      return Undefined;
    }
    r := Progress((p.total + n.value * factor) % U32, strtok.saved, true);
  }

  /** parse_toml_string_to_sec. */
  method ParseDuration(t: string) returns (r: Progress)
    ensures r == Seconds(t)
  {
    var strtok := new Tokenizer();
    r := TakeUnit(strtok, NOTHING, t, 'h', 3600);
    r := TakeUnit(strtok, r, t, 'm', 60);
    r := TakeUnit(strtok, r, t, 's', 1);
  }

  // ----- host and port -------------------------------------------------------

  function Join(host: string, port: nat): string
  {
    host + [COLON] + Digits(port)
  }

  /** A text that starts with a colon leaves host and port as they were; a NULL
      token or a port that is no int is undefined. */
  datatype Server = Unread | Invalid | Server(host: string, port: nat)

  const SHORT: nat := 7 // the length of "0.0.0.0"

  function WithPort(host: string, rest: string): Server
  {
    var piece := Strtok(rest, COLON);
    if piece.None? then Invalid
    else
      var n := Atoi(piece.value.tok);
      if n.None? then Invalid else Server(host, n.value % U32)
  }

  /** A first part shorter than an address is a scheme, and takes the next part with it. */
  function Split(bind: string): Server
  {
    if bind != [] && bind[0] == COLON then Unread
    else
      var first := Strtok(CStr(bind), COLON);
      if first.None? then Invalid
      else if |first.value.tok| >= SHORT then WithPort(first.value.tok, first.value.rest)
      else
        var second := Strtok(first.value.rest, COLON);
        if second.None? then Invalid
        else WithPort(first.value.tok + [COLON] + second.value.tok, second.value.rest)
  }

  method SplitServer(bind: string) returns (r: Server)
    ensures r == Split(bind)
  {
    if bind != [] && bind[0] == COLON {
      return Unread;
    }
    var strtok := new Tokenizer();
    strtok.Begin(bind);
    var ip := strtok.Next(COLON);
    if ip.None? {
      return Invalid;
    }
    var host := ip.value;
    if |host| < SHORT {
      var part := strtok.Next(COLON);
      if part.None? {
        return Invalid;
      }
      host := host + [COLON] + part.value;
    }
    var port := strtok.Next(COLON);
    if port.None? {
      return Invalid;
    }
    var n := Atoi(port.value);
    if n.None? {
      return Invalid;
    }
    r := Server(host, n.value % U32);
  }

  /** An address, or a short scheme and an address; and nothing that ends a C string. */
  predicate Splittable(host: string)
  {
    NUL !in host &&
    (|| (COLON !in host && |host| >= 7)
     || (var rest := After(host, COLON);
         0 < |Before(host, COLON)| < 7 && rest.Some? && rest.value != [] && COLON !in rest.value))
  }

  /** What a server string with a NUL in its host is split into has none. */
  lemma {:induction false} SplitHasNoNul(bind: string)
    ensures Split(bind).Server? ==> NUL !in Split(bind).host
  {
    var c := CStr(bind);
    PiecesOf(c, COLON, NUL);
    var first := Strtok(c, COLON);
    if first.Some? {
      PiecesOf(first.value.rest, COLON, NUL);
    }
  }

  /** A token and what follows it hold only characters of the text. */
  lemma {:induction false} PiecesOf(s: string, d: char, x: char)
    requires x !in s
    ensures Strtok(s, d).Some? ==> x !in Strtok(s, d).value.tok && x !in Strtok(s, d).value.rest
  {
    SkipCharPart(s, d, x);
    CutPart(SkipChar(s, d), d, x);
  }

  lemma {:induction false} SkipCharPart(s: string, d: char, x: char)
    requires x !in s
    ensures x !in SkipChar(s, d)
  {
    if s != [] && s[0] == d {
      SkipCharPart(s[1..], d, x);
    }
  }

  lemma {:induction false} CutPart(s: string, d: char, x: char)
    requires x !in s
    ensures x !in Before(s, d) && (After(s, d).Some? ==> x !in After(s, d).value)
  {
    if s != [] && s[0] != d {
      CutPart(s[1..], d, x);
    }
  }

  lemma {:induction false} PortRead(host: string, port: nat)
    requires port < U32
    ensures WithPort(host, Digits(port)) == if port <= MAX_INT then Server(host, port) else Invalid
  {
    StrtokLast(Digits(port), COLON);
    AtoiOfDigits(port);
  }

  lemma {:induction false} BeforeAfter(s: string, d: char)
    ensures d !in s ==> Before(s, d) == s
    ensures d in s ==> s == Before(s, d) + [d] + After(s, d).value
  {
    if d !in s {
      NoDelimiter(s, d);
    } else if s[0] != d {
      BeforeAfter(s[1..], d);
      assert s == [s[0]] + s[1..];
    } else {
      assert s == [] + [d] + s[1..];
    }
  }

  lemma {:induction false} JoinedCStr(host: string, port: nat)
    requires NUL !in host
    ensures CStr(Join(host, port)) == Join(host, port)
  {
    assert forall i :: 0 <= i < |Digits(port)| ==> Digits(port)[i] != NUL;
    WholeCStr(Join(host, port));
  }

  /** A host without a colon. */
  lemma {:induction false} JoinAddress(host: string, port: nat)
    requires port < U32 && host != [] && COLON !in host && NUL !in host
    ensures Split(Join(host, port)) == Server(host, port) <==> |host| >= SHORT && port <= MAX_INT
  {
    JoinedCStr(host, port);
    StrtokFirst(host, COLON, Digits(port));
    PortRead(host, port);
  }

  /** A host with one. */
  lemma {:induction false} JoinScheme(scheme: string, rest: string, port: nat)
    requires port < U32 && scheme != [] && COLON !in scheme && NUL !in scheme && NUL !in rest
    ensures var host := scheme + [COLON] + rest;
            Split(Join(host, port)) == Server(host, port) <==>
            |scheme| < SHORT && rest != [] && COLON !in rest && port <= MAX_INT
  {
    var host := scheme + [COLON] + rest;
    var tail := rest + [COLON] + Digits(port);
    JoinedCStr(host, port);
    assert Join(host, port) == scheme + [COLON] + tail;
    StrtokFirst(scheme, COLON, tail);
    if rest != [] && COLON !in rest {
      StrtokFirst(rest, COLON, Digits(port));
      PortRead(host, port);
    } else {
      SchemeRest(scheme, rest, tail);
    }
  }

  lemma {:induction false} SchemeRest(scheme: string, rest: string, tail: string)
    requires rest == [] || COLON in rest
    ensures Strtok(tail, COLON).Some? ==>
              scheme + [COLON] + Strtok(tail, COLON).value.tok != scheme + [COLON] + rest
  {
    var piece := Strtok(tail, COLON);
    if piece.Some? {
      var tok, p := piece.value.tok, scheme + [COLON];
      FirstOfToken(tail, COLON);
      assert (p + tok)[|p|..] == tok && (p + rest)[|p|..] == rest;
    }
  }

  /** A token is not empty and does not hold the delimiter. */
  lemma {:induction false} FirstOfToken(s: string, d: char)
    ensures Strtok(s, d).Some? ==> Strtok(s, d).value.tok != [] && d !in Strtok(s, d).value.tok
  {
    SkipCharStops(s, d);
  }

  lemma {:induction false} SkipCharStops(s: string, d: char)
    ensures SkipChar(s, d) != [] ==> SkipChar(s, d)[0] != d
  {
    if s != [] && s[0] == d {
      SkipCharStops(s[1..], d);
    }
  }

  /** Endpoint round trip, exactly: splitting a joined server string gives host and
      port back if and only if the host, free of NULs, is an address or a short scheme
      with one, and the port is an int. */
  lemma {:induction false} EndpointRoundTrip(host: string, port: nat)
    requires port < U32
    ensures Split(Join(host, port)) == Server(host, port) <==> Splittable(host) && port <= MAX_INT
  {
    BeforeAfter(host, COLON);
    var scheme := Before(host, COLON);
    if NUL in host {
      SplitHasNoNul(Join(host, port));
    } else if scheme == [] {
      assert Join(host, port)[0] == COLON;
    } else if COLON in host {
      CutPart(host, COLON, NUL);
      JoinScheme(scheme, After(host, COLON).value, port);
    } else {
      JoinAddress(host, port);
    }
  }

  // ----- what the texts look like --------------------------------------------

  /** strtok skips delimiters in front of a token, and finds none in delimiters alone. */
  lemma {:induction false} StrtokSkips(s: string, d: char)
    ensures Strtok([d] + s, d) == Strtok(s, d) && Strtok([], d) == None
  {
    assert ([d] + s)[1..] == s;
  }

  /** Decimal, most significant digit first. */
  lemma {:induction false} DecimalDigits(n: nat, d: nat)
    requires d < 10
    ensures Digits(d) == ["0123456789"[d]]
    ensures n > 0 ==> Digits(10 * n + d) == Digits(n) + ["0123456789"[d]]
  {
    assert "0123456789"[d] == Digit(d);
    assert (10 * n + d) / 10 == n && (10 * n + d) % 10 == d;
  }

  /** Seconds always, minutes from one minute on, hours from one hour on. */
  lemma {:induction false} DurationWritten(sec: nat)
    ensures sec < 60 ==> Duration(sec) == Digits(sec) + "s"
    ensures 60 <= sec < 3600 ==> Duration(sec) == Digits(sec / 60) + "m" + (Digits(sec % 60) + "s")
    ensures 3600 <= sec ==>
              Duration(sec) == Digits(sec / 3600) + "h" + (Digits(sec / 60 % 60) + "m") + (Digits(sec % 60) + "s")
  {
    Sexagesimal(sec);
  }

  lemma {:induction false} Sexagesimal(sec: nat)
    ensures sec % 3600 / 60 == sec / 60 % 60 && sec % 3600 % 60 == sec % 60
    ensures sec < 3600 ==> sec % 3600 == sec && sec / 3600 == 0
  {
    var h, r := sec / 3600, sec % 3600;
    var m, s := r / 60, r % 60;
    assert sec == 60 * (60 * h + m) + s;
    assert sec / 60 == 60 * h + m && sec % 60 == s;
  }

  /** Spaces and a sign in front of a number, anything behind it. */
  lemma {:induction false} AtoiReads(n: nat, u: string)
    requires u == [] || !IsDigit(u[0])
    ensures Atoi(Digits(n) + u) == Int(n)
    ensures Atoi(['+'] + (Digits(n) + u)) == Int(n) && Atoi(['-'] + (Digits(n) + u)) == Int(-(n as int))
    ensures Atoi([' '] + (Digits(n) + u)) == Int(n)
  {
    var s := Digits(n) + u;
    NumberOfDigits(n, u);
    assert IsDigit(s[0]) && SkipSpace(s) == s;
    assert (['+'] + s)[1..] == s && (['-'] + s)[1..] == s && ([' '] + s)[1..] == s;
  }

  /** A text without a number is no number. */
  lemma {:induction false} AtoiOfNone(s: string)
    requires s == [] || (!IsSpace(s[0]) && !IsDigit(s[0]) && s[0] != '+' && s[0] != '-')
    ensures Atoi(s) == Some(0)
  {
  }

  /** A unit without anything in front of it is a NULL token. */
  lemma {:induction false} BareUnit(unit: char)
    requires unit == 'h' || unit == 'm' || unit == 's'
    ensures Seconds([unit]) == Undefined && Seconds([]) == NOTHING
  {
    WholeCStr([unit]);
    assert [unit][1..] == [];
    assert SkipChar([unit], unit) == [];
    assert Strtok([unit], unit) == None;
  }

  /** What a server string means: an address of seven characters or more with a port;
      a shorter scheme takes the next part with it; a missing part is a NULL token; a
      colon in front leaves everything as it was. */
  lemma {:induction false} SplitAddress(a: string, b: string)
    requires |a| >= 7 && ':' !in a && NUL !in a && b != [] && ':' !in b && NUL !in b
    ensures Split(a) == Invalid && Split([':'] + b) == Unread && Split([]) == Invalid
    ensures Split(a + [':'] + b) == Read(a, b)
  {
    var s := a + [':'] + b;
    assert s[0] == a[0];
    WholeCStr(a);
    StrtokLast(a, ':');
    WholeCStr(s);
    StrtokFirst(a, ':', b);
    StrtokLast(b, ':');
  }

  lemma {:induction false} SplitScheme(a: string, b: string, d: string)
    requires 0 < |a| < 7 && ':' !in a && NUL !in a && b != [] && ':' !in b && NUL !in b && d != [] && ':' !in d && NUL !in d
    ensures Split(a) == Invalid && Split(a + [':'] + b) == Invalid
    ensures Split(a + [':'] + (b + [':'] + d)) == Read(a + ":" + b, d)
  {
    var s, t := a + [':'] + b, a + [':'] + (b + [':'] + d);
    assert s[0] == a[0] && t[0] == a[0];
    WholeCStr(a);
    StrtokLast(a, ':');
    WholeCStr(s);
    StrtokFirst(a, ':', b);
    StrtokLast(b, ':');
    WholeCStr(t);
    StrtokFirst(a, ':', b + [':'] + d);
    StrtokFirst(b, ':', d);
    StrtokLast(d, ':');
  }

  /** A host with what atoi makes of the port text, as an unsigned 32-bit number. */
  function Read(host: string, port: string): Server
  {
    if Atoi(port).None? then Invalid else Server(host, Atoi(port).value % 0x1_0000_0000)
  }
}
