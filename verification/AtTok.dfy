/** The AT field tokenizer: what it returns for a line, and for which printed
    lists of fields that is the list itself. */
module AtTok {
  import opened Common

  const NUL: char := '\0'
  const QUOTE: char := '"'
  const COMMA: char := ','
  const COLON: char := ':'

  predicate IsSpace(c: char)
  {
    c == ' ' || 9 <= c as int <= 13
  }

  // ----- what the steps do to the string at the cursor -----------------------

  function SkipSpace(s: string): string
  {
    if s != [] && IsSpace(s[0]) then SkipSpace(s[1..]) else s
  }

  /** strsep with one delimiter: the token, and what remains (nothing at all if
      the delimiter does not occur). */
  function Before(s: string, d: char): (t: string)
    ensures d !in t && |t| <= |s|
  {
    if s == [] || s[0] == d then [] else [s[0]] + Before(s[1..], d)
  }

  function After(s: string, d: char): (t: Option<string>)
    ensures t.Some? <==> d in s
    ensures t.Some? ==> |t.value| < |s|
  {
    if s == [] then None else if s[0] == d then Some(s[1..]) else After(s[1..], d)
  }

  function DropComma(s: string): (t: string)
    ensures |t| <= |s|
  {
    var a := After(s, COMMA);
    if a.Some? then a.value else []
  }

  datatype Token = Token(text: string, rest: Option<string>)

  function Quoted(s: string): (t: Token)
    ensures t.rest.Some? ==> |t.rest.value| < |s|
  {
    var a := After(s, QUOTE);
    Token(Before(s, QUOTE), if a.Some? then Some(DropComma(a.value)) else None)
  }

  function Bare(s: string): (t: Token)
    ensures t.rest.Some? ==> |t.rest.value| < |s|
  {
    Token(Before(s, COMMA), After(s, COMMA))
  }

  function NextToken(s: string): (t: Token)
    ensures t.rest.Some? ==> |t.rest.value| < |s|
  {
    SkipIsShorter(s);
    var u := SkipSpace(s);
    if u != [] && u[0] == QUOTE then Quoted(u[1..]) else Bare(u)
  }

  lemma {:induction false} SkipIsShorter(s: string)
    ensures |SkipSpace(s)| <= |s|
  {
    if s != [] && IsSpace(s[0]) {
      SkipIsShorter(s[1..]);
    }
  }

  /** All tokens: at_tok_nextstr as long as at_tok_hasmore. */
  function Tokens(rest: Option<string>): seq<string>
    decreases if rest.Some? then |rest.value| + 1 else 0
  {
    if rest.None? || rest.value == [] then []
    else
      var t := NextToken(rest.value);
      [t.text] + Tokens(t.rest)
  }

  // ----- printing ------------------------------------------------------------

  datatype Field = InQuotes(text: string) | Plain(text: string)

  function Show(f: Field): string
  {
    if f.InQuotes? then [QUOTE] + f.text + [QUOTE] else f.text
  }

  function Print(fields: seq<Field>): string
  {
    if |fields| == 0 then []
    else if |fields| == 1 then Show(fields[0])
    else Show(fields[0]) + [COMMA] + Print(fields[1..])
  }

  function Texts(fields: seq<Field>): (t: seq<string>)
    ensures |t| == |fields| && forall i :: 0 <= i < |t| ==> t[i] == fields[i].text
  {
    if fields == [] then [] else [fields[0].text] + Texts(fields[1..])
  }

  predicate Printable(f: Field)
  {
    match f
    case InQuotes(t) => QUOTE !in t
    case Plain(t) => COMMA !in t && (t == [] || (!IsSpace(t[0]) && t[0] != QUOTE))
  }

  /** No quote in a quoted field; no comma and no leading space or quote in a plain
      one; and the last field is not an empty plain one. */
  predicate WellFormed(fields: seq<Field>)
  {
    && (forall i :: 0 <= i < |fields| ==> Printable(fields[i]))
    && (fields != [] ==> fields[|fields| - 1] != Plain([]))
  }

  // ----- round trip ----------------------------------------------------------

  lemma {:induction false} CutAtDelimiter(s: string, d: char, u: string)
    requires d !in s
    ensures Before(s + [d] + u, d) == s && After(s + [d] + u, d) == Some(u)
  {
    var all := s + [d] + u;
    if s != [] {
      CutAtDelimiter(s[1..], d, u);
      assert all[1..] == s[1..] + [d] + u;
    } else {
      assert all[1..] == u;
    }
  }

  lemma {:induction false} NoDelimiter(s: string, d: char)
    requires d !in s
    ensures Before(s, d) == s && After(s, d) == None
  {
    if s != [] {
      var rest := s[1..];
      NoDelimiter(rest, d);
      assert s[0] != d && s == [s[0]] + rest;
    }
  }

  /** Both at once: `n` is where the delimiter first occurs, or the end. */
  lemma {:induction false} CutHere(s: string, d: char, n: nat)
    requires n <= |s| && (forall k :: 0 <= k < n ==> s[k] != d) && (n < |s| ==> s[n] == d)
    ensures Before(s, d) == s[..n]
    ensures After(s, d) == if n < |s| then Some(s[n + 1..]) else None
  {
    if n < |s| {
      assert s == s[..n] + [d] + s[n + 1..];
      CutAtDelimiter(s[..n], d, s[n + 1..]);
    } else {
      assert s == s[..n];
      NoDelimiter(s, d);
    }
  }

  /** What follows a field: the end, or a comma and more. */
  predicate Follows(w: string, more: Option<string>)
  {
    w == if more.Some? then [COMMA] + more.value else []
  }

  /** A printable field followed by the end or by a comma is the next token, and
      the cursor then stands behind the comma. */
  lemma {:induction false} NextIsPlain(t: string, w: string, more: Option<string>)
    requires Printable(Plain(t)) && Follows(w, more)
    ensures NextToken(t + w) == Token(t, more)
  {
    var s := t + w;
    assert SkipSpace(s) == s;
    if more.Some? {
      assert s == t + [COMMA] + more.value;
      CutAtDelimiter(t, COMMA, more.value);
    } else {
      assert s == t;
      NoDelimiter(t, COMMA);
    }
  }

  lemma {:induction false} NextIsQuoted(t: string, w: string, more: Option<string>)
    requires Printable(InQuotes(t)) && Follows(w, more)
    ensures NextToken(Show(InQuotes(t)) + w) == Token(t, Some(if more.Some? then more.value else []))
  {
    OpenQuote(t, w);
    CutAtDelimiter(t, QUOTE, w);
    CommaDropped(w, more);
  }

  lemma {:induction false} OpenQuote(t: string, w: string)
    ensures NextToken(Show(InQuotes(t)) + w) == Quoted(t + [QUOTE] + w)
  {
    var s := Show(InQuotes(t)) + w;
    assert s[0] == QUOTE && SkipSpace(s) == s;
    assert s[1..] == t + [QUOTE] + w;
  }

  lemma {:induction false} CommaDropped(w: string, more: Option<string>)
    requires Follows(w, more)
    ensures DropComma(w) == if more.Some? then more.value else []
  {
    if more.Some? {
      assert w == [] + [COMMA] + more.value;
      CutAtDelimiter([], COMMA, more.value);
    }
  }

  lemma {:induction false} SkipThrough(t: string, w: string)
    ensures SkipSpace(t) == [] ==> SkipSpace(t + w) == SkipSpace(w)
    ensures SkipSpace(t) != [] ==> SkipSpace(t)[0] in t && SkipSpace(t + w) != [] && SkipSpace(t + w)[0] == SkipSpace(t)[0]
  {
    if t != [] {
      assert (t + w)[1..] == t[1..] + w;
      if IsSpace(t[0]) {
        SkipThrough(t[1..], w);
      }
    } else {
      assert t + w == w;
    }
  }

  lemma {:induction false} SkipStops(s: string)
    ensures SkipSpace(s) != [] ==> !IsSpace(SkipSpace(s)[0])
  {
    if s != [] && IsSpace(s[0]) {
      SkipStops(s[1..]);
    }
  }

  /** A field that is not printable is never what the tokenizer returns for it. */
  lemma {:induction false} BadPlain(t: string, w: string, more: Option<string>)
    requires !Printable(Plain(t)) && Follows(w, more)
    ensures NextToken(t + w).text != t
  {
    SkipThrough(t, w);
    SkipStops(t + w);
  }

  lemma {:induction false} BadQuoted(t: string, w: string)
    requires !Printable(InQuotes(t))
    ensures NextToken(Show(InQuotes(t)) + w).text != t
  {
    OpenQuote(t, w);
  }

  lemma {:induction false} WellFormedHead(fields: seq<Field>)
    requires |fields| >= 2
    ensures WellFormed(fields) <==> Printable(fields[0]) && WellFormed(fields[1..])
  {
    var rest := fields[1..];
    assert rest[|rest| - 1] == fields[|fields| - 1];
    assert WellFormed(fields) ==> forall i :: 0 <= i < |rest| ==> rest[i] == fields[i + 1];
    assert WellFormed(rest) ==> forall i :: 1 <= i < |fields| ==> fields[i] == rest[i - 1];
  }

  /** One token of a printed list. */
  lemma {:induction false} FirstToken(f: Field, w: string, more: Option<string>)
    requires Follows(w, more)
    ensures Printable(f) ==> NextToken(Show(f) + w).text == f.text
    ensures Printable(f) ==> Tokens(NextToken(Show(f) + w).rest) == Tokens(more)
    ensures !Printable(f) ==> NextToken(Show(f) + w).text != f.text
  {
    if f.Plain? {
      if Printable(f) {
        NextIsPlain(f.text, w, more);
      } else {
        BadPlain(f.text, w, more);
      }
    } else if Printable(f) {
      NextIsQuoted(f.text, w, more);
    } else {
      BadQuoted(f.text, w);
    }
  }

  lemma {:induction false} SameHead(a: string, x: seq<string>, b: string, y: seq<string>)
    ensures [a] + x == [b] + y <==> a == b && x == y
  {
    assert ([a] + x)[0] == a && ([b] + y)[0] == b;
    assert ([a] + x)[1..] == x && ([b] + y)[1..] == y;
  }

  lemma {:induction false} OneField(f: Field)
    ensures Tokens(Some(Show(f))) == [f.text] <==> Printable(f) && f != Plain([])
  {
    FirstToken(f, [], None);
    assert Show(f) + [] == Show(f);
    if Show(f) != [] {
      var t := NextToken(Show(f));
      SameHead(t.text, Tokens(t.rest), f.text, []);
    }
  }

  /** AT field round trip, exactly: the tokens of a printed list are its fields if
      and only if the list is well formed. */
  lemma {:induction false} RoundTripIff(fields: seq<Field>)
    ensures Tokens(Some(Print(fields))) == Texts(fields) <==> WellFormed(fields)
  {
    if |fields| == 1 {
      assert Texts(fields) == [fields[0].text];
      OneField(fields[0]);
    } else if |fields| >= 2 {
      var rest := fields[1..];
      RoundTripIff(rest);
      WellFormedHead(fields);
      var w := [COMMA] + Print(rest);
      assert Print(fields) == Show(fields[0]) + w;
      FirstToken(fields[0], w, Some(Print(rest)));
      var t := NextToken(Print(fields));
      SameHead(t.text, Tokens(t.rest), fields[0].text, Texts(rest));
    }
  }

  /** at_tok_start finds the fields behind a prefix exactly if the prefix has no colon. */
  lemma {:induction false} StartIff(prefix: string, s: string)
    ensures After(prefix + [COLON] + s, COLON) == Some(s) <==> COLON !in prefix
  {
    var all := prefix + [COLON] + s;
    if COLON !in prefix {
      CutAtDelimiter(prefix, COLON, s);
    } else {
      AfterIsLonger(prefix, COLON, [COLON] + s);
      assert all == prefix + ([COLON] + s);
    }
  }

  lemma {:induction false} AfterIsLonger(p: string, d: char, u: string)
    requires d in p
    ensures After(p + u, d).Some? && |After(p + u, d).value| >= |u|
  {
    assert (p + u)[1..] == p[1..] + u;
    if p[0] != d {
      AfterIsLonger(p[1..], d, u);
    }
  }

  /** The whole line: prefix, colon, printed fields. */
  lemma {:induction false} LineRoundTrip(prefix: string, fields: seq<Field>)
    requires COLON !in prefix
    ensures Tokens(After(prefix + [COLON] + Print(fields), COLON)) == Texts(fields) <==> WellFormed(fields)
  {
    StartIff(prefix, Print(fields));
    RoundTripIff(fields);
  }

  /** What is done with lines nobody prints: anything between a closing quote and the
      next comma is dropped, a quote that is never closed takes the rest of the line,
      and leading space is skipped. */
  lemma {:induction false} JunkIsDropped(t: string, junk: string, u: string)
    requires '"' !in t && ',' !in junk
    ensures NextToken(['"'] + (t + ['"'] + (junk + [','] + u))) == Token(t, Some(u))
  {
    QuoteOpens(t + ['"'] + (junk + [','] + u));
    CutAtDelimiter(t, '"', junk + [','] + u);
    CutAtDelimiter(junk, ',', u);
  }

  lemma {:induction false} JunkAtEnd(t: string, junk: string)
    requires '"' !in t && ',' !in junk
    ensures NextToken(['"'] + (t + ['"'] + junk)) == Token(t, Some([]))
  {
    QuoteOpens(t + ['"'] + junk);
    CutAtDelimiter(t, '"', junk);
    NoDelimiter(junk, ',');
  }

  lemma {:induction false} OpenQuoteTakesAll(t: string)
    requires '"' !in t
    ensures NextToken(['"'] + t) == Token(t, None)
  {
    QuoteOpens(t);
    NoDelimiter(t, '"');
  }

  lemma {:induction false} SpaceIsSkipped(c: char, s: string)
    requires IsSpace(c)
    ensures NextToken([c] + s) == NextToken(s)
  {
    assert ([c] + s)[1..] == s;
  }

  lemma {:induction false} QuoteOpens(s: string)
    ensures NextToken(['"'] + s) == Quoted(s)
  {
    assert (['"'] + s)[1..] == s && SkipSpace(['"'] + s) == ['"'] + s;
  }

  /** The characters that matter: what separates, what quotes, what C calls space. */
  lemma {:induction false} FieldSyntax(a: string, b: string, c: char)
    ensures Print([Plain(a), InQuotes(b)]) == a + "," + "\"" + b + "\""
    ensures StartsFields(a, b)
    ensures IsSpace(c) <==> c == ' ' || c == '\t' || c == '\n' || c == '\r' || c as int == 11 || c as int == 12
  {
    var fields := [Plain(a), InQuotes(b)];
    assert fields[1..] == [InQuotes(b)];
    if ':' !in a {
      CutAtDelimiter(a, ':', b);
    }
  }

  /** What follows the first colon is tokenized. */
  predicate StartsFields(prefix: string, s: string)
  {
    ':' !in prefix ==> After(prefix + [':'] + s, COLON) == Some(s)
  }
}
