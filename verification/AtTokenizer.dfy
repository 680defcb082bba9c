/** The tokenizer as it runs: a cursor into a line that strsep cuts up by
    overwriting delimiters with terminators. */
module AtTokenizing {
  import opened Common
  import opened AtTok

  /** The C string at `i` is `s`. */
  ghost predicate Holds(a: array<char>, i: nat, s: string)
    reads a
  {
    && i + |s| < a.Length && a[i + |s|] == NUL
    && forall k :: 0 <= k < |s| ==> a[i + k] == s[k] && s[k] != NUL
  }

  lemma {:induction false} HoldsTail(a: array<char>, i: nat, s: string)
    requires Holds(a, i, s) && s != []
    ensures Holds(a, i + 1, s[1..])
  {
    var t := s[1..];
    assert forall k :: 0 <= k < |t| ==> t[k] == s[k + 1];
  }

  lemma {:induction false} HoldsFirst(a: array<char>, i: nat, s: string)
    requires Holds(a, i, s)
    ensures s == [] <==> a[i] == NUL
    ensures s != [] ==> a[i] == s[0]
  {
    if s != [] {
      assert a[i + 0] == s[0] && s[0] != NUL;
    }
  }

  lemma {:induction false} OneMore(texts: seq<string>, s: string, goal: seq<string>)
    requires s != [] && texts + Tokens(Some(s)) == goal
    ensures texts + [NextToken(s).text] + Tokens(NextToken(s).rest) == goal
  {
    var t := NextToken(s);
    assert texts + ([t.text] + Tokens(t.rest)) == texts + [t.text] + Tokens(t.rest);
  }

  class AtTokenizer {
    const line: array<char>

    /** None is the NULL that strsep leaves after the last token. */
    var cur: Option<nat>

    constructor (line: array<char>)
      ensures this.line == line && cur == Some(0)
    {
      this.line := line;
      cur := Some(0);
    }

    /** What is left to read. */
    ghost predicate At(rest: Option<string>)
      reads this, line
    {
      && (cur.Some? <==> rest.Some?)
      && (cur.Some? ==> Holds(line, cur.value, rest.value))
    }

    /** The line up to the cursor is as it was. */
    twostate predicate KeptBefore(n: nat)
      reads line
    {
      forall k :: 0 <= k < n && k < line.Length ==> line[k] == old(line[k])
    }

    method Start(ghost s: string) returns (ok: bool)
      requires At(Some(s))
      modifies this`cur
      ensures At(After(s, COLON)) && ok == cur.Some?
    {
      var i: nat := cur.value;
      ghost var t := s;
      while line[i] != NUL && line[i] != COLON
        invariant Holds(line, i, t) && After(t, COLON) == After(s, COLON)
        decreases |t|
      {
        HoldsFirst(line, i, t);
        HoldsTail(line, i, t);
        i, t := i + 1, t[1..];
      }
      HoldsFirst(line, i, t);
      ok := line[i] == COLON;
      if ok {
        HoldsTail(line, i, t);
        cur := Some(i + 1);
      } else {
        cur := None;
      }
    }

    method SkipWhiteSpace(ghost s: string)
      requires At(Some(s))
      modifies this`cur
      ensures At(Some(SkipSpace(s))) && old(cur.value) <= cur.value
    {
      ghost var t := s;
      while line[cur.value] != NUL && IsSpace(line[cur.value])
        invariant At(Some(t)) && SkipSpace(t) == SkipSpace(s) && old(cur.value) <= cur.value
        decreases |t|
      {
        HoldsFirst(line, cur.value, t);
        HoldsTail(line, cur.value, t);
        cur, t := Some(cur.value + 1), t[1..];
      }
      HoldsFirst(line, cur.value, t);
    }

    method SkipNextComma(ghost rest: Option<string>)
      requires At(rest)
      modifies this`cur
      ensures At(if rest.Some? then Some(DropComma(rest.value)) else None)
      ensures cur.Some? ==> old(cur).Some? && old(cur.value) <= cur.value
    {
      if cur.None? {
        return;
      }
      ghost var t := rest.value;
      while line[cur.value] != NUL && line[cur.value] != COMMA
        invariant At(Some(t)) && DropComma(t) == DropComma(rest.value) && old(cur.value) <= cur.value
        decreases |t|
      {
        HoldsFirst(line, cur.value, t);
        HoldsTail(line, cur.value, t);
        cur, t := Some(cur.value + 1), t[1..];
      }
      HoldsFirst(line, cur.value, t);
      if line[cur.value] == COMMA {
        HoldsTail(line, cur.value, t);
        cur := Some(cur.value + 1);
      }
    }

    /** Where the token that starts at the cursor ends. */
    method FindEnd(d: char, ghost s: string) returns (n: nat)
      requires At(Some(s)) && d != NUL
      ensures n == |Before(s, d)| <= |s| && Before(s, d) == s[..n]
      ensures n < |s| ==> s[n] == d && After(s, d) == Some(s[n + 1..])
      ensures n == |s| ==> After(s, d) == None
    {
      n := 0;
      while line[cur.value + n] != NUL && line[cur.value + n] != d
        invariant n <= |s| && forall k :: 0 <= k < n ==> s[k] != d
        decreases |s| - n
      {
        n := n + 1;
      }
      CutHere(s, d, n);
    }

    /** strsep: the token starts at the cursor, the delimiter behind it becomes its
        terminator. */
    method Separate(d: char, ghost s: string) returns (tok: nat)
      requires At(Some(s)) && d != NUL
      modifies this`cur, line
      ensures tok == old(cur.value) && Holds(line, tok, Before(s, d)) && At(After(s, d))
      ensures cur.Some? ==> tok + |Before(s, d)| < cur.value
      ensures KeptBefore(tok)
    {
      tok := cur.value;
      var n := FindEnd(d, s);
      if line[tok + n] == d {
        line[tok + n] := NUL;
        cur := Some(tok + n + 1);
      } else {
        cur := None;
      }
    }

    /** nextTok. */
    method NextTok(ghost s: string) returns (tok: nat)
      requires At(Some(s))
      modifies this`cur, line
      ensures At(NextToken(s).rest) && Holds(line, tok, NextToken(s).text) && old(cur.value) <= tok
      ensures cur.Some? ==> tok + |NextToken(s).text| < cur.value
      ensures KeptBefore(old(cur.value))
    {
      SkipWhiteSpace(s);
      ghost var t := SkipSpace(s);
      HoldsFirst(line, cur.value, t);
      if line[cur.value] == QUOTE {
        HoldsTail(line, cur.value, t);
        cur := Some(cur.value + 1);
        tok := Separate(QUOTE, t[1..]);
        SkipNextComma(After(t[1..], QUOTE));
      } else {
        tok := Separate(COMMA, t);
      }
    }

    /** at_tok_nextstr: fails only when nothing is left. */
    method NextStr(ghost rest: Option<string>) returns (tok: Option<nat>)
      requires At(rest)
      modifies this`cur, line
      ensures tok.None? <==> rest.None?
      ensures rest.None? ==> At(None) && KeptBefore(line.Length)
      ensures rest.Some? ==>
                && At(NextToken(rest.value).rest) && Holds(line, tok.value, NextToken(rest.value).text)
                && old(cur.value) <= tok.value
                && (cur.Some? ==> tok.value + |NextToken(rest.value).text| < cur.value)
                && KeptBefore(old(cur.value))
    {
      if cur.None? {
        return None;
      }
      var t := NextTok(rest.value);
      tok := Some(t);
    }

    method HasMore(ghost rest: Option<string>) returns (more: bool)
      requires At(rest)
      ensures more <==> rest.Some? && rest.value != []
    {
      if cur.Some? {
        HoldsFirst(line, cur.value, rest.value);
      }
      more := cur.Some? && line[cur.value] != NUL;
    }

    /** The tokens read so far are intact, and lie before the cursor. */
    ghost predicate Kept(toks: seq<nat>, texts: seq<string>)
      reads this, line
    {
      && |toks| == |texts|
      && (forall i :: 0 <= i < |toks| ==> Holds(line, toks[i], texts[i]))
      && (cur.Some? ==> forall i :: 0 <= i < |toks| ==> toks[i] + |texts[i]| < cur.value)
    }

    /** One more token; those before it stay intact. */
    method AddToken(ghost rest: string, toks: seq<nat>, ghost texts: seq<string>) returns (all: seq<nat>)
      requires At(Some(rest)) && Kept(toks, texts)
      modifies this`cur, line
      ensures At(NextToken(rest).rest) && Kept(all, texts + [NextToken(rest).text])
    {
      var tok := NextStr(Some(rest));
      all := toks + [tok.value];
    }

    /** at_tok_nextstr while at_tok_hasmore: the pointers returned hold exactly the
        tokens of the line, each still intact after the later cuts. */
    method ReadTokens(ghost rest: Option<string>) returns (toks: seq<nat>)
      requires At(rest)
      modifies this`cur, line
      ensures |toks| == |Tokens(rest)|
      ensures forall i :: 0 <= i < |toks| ==> Holds(line, toks[i], Tokens(rest)[i])
    {
      toks := [];
      ghost var goal := Tokens(rest);
      ghost var left, texts := rest, [];
      var more := HasMore(left);
      while more
        invariant At(left) && Kept(toks, texts) && texts + Tokens(left) == goal
        invariant more <==> left.Some? && left.value != []
        decreases if left.Some? then |left.value| + 1 else 0
      {
        toks := AddToken(left.value, toks, texts);
        ghost var t := NextToken(left.value);
        OneMore(texts, left.value, goal);
        left, texts := t.rest, texts + [t.text];
        more := HasMore(left);
      }
    }

    /** A whole response line. */
    method ReadLine(ghost s: string) returns (ok: bool, toks: seq<nat>)
      requires cur == Some(0) && Holds(line, 0, s)
      modifies this`cur, line
      ensures ok <==> COLON in s
      ensures ok ==> |toks| == |Tokens(After(s, COLON))|
      ensures ok ==> forall i :: 0 <= i < |toks| ==> Holds(line, toks[i], Tokens(After(s, COLON))[i])
    {
      ok := Start(s);
      toks := [];
      if ok {
        toks := ReadTokens(After(s, COLON));
      }
    }

    /** A printed line of fields: all pointers hold their fields if and only if the
        list is well formed. */
    method ReadFields(ghost prefix: string, ghost fields: seq<Field>) returns (toks: seq<nat>)
      requires cur == Some(0) && COLON !in prefix && Holds(line, 0, prefix + [COLON] + Print(fields))
      modifies this`cur, line
      ensures WellFormed(fields) ==> |toks| == |fields| && forall i :: 0 <= i < |toks| ==> Holds(line, toks[i], fields[i].text)
      ensures |toks| == |fields| && (forall i :: 0 <= i < |toks| ==> Holds(line, toks[i], fields[i].text)) ==> WellFormed(fields)
    {
      ghost var s := prefix + [COLON] + Print(fields);
      StartIff(prefix, Print(fields));
      LineRoundTrip(prefix, fields);
      var ok;
      ok, toks := ReadLine(s);
      ghost var tokens := Tokens(After(s, COLON));
      if |toks| == |fields| && forall i :: 0 <= i < |toks| ==> Holds(line, toks[i], fields[i].text) {
        forall i | 0 <= i < |toks|
          ensures tokens[i] == Texts(fields)[i]
        {
          OneString(line, toks[i], tokens[i], fields[i].text);
        }
        assert tokens == Texts(fields);
      }
    }
  }

  /** A C string is determined by where it starts. */
  lemma {:induction false} OneString(a: array<char>, i: nat, s: string, t: string)
    requires Holds(a, i, s) && Holds(a, i, t)
    ensures s == t
    decreases |s|
  {
    HoldsFirst(a, i, s);
    HoldsFirst(a, i, t);
    if s != [] {
      HoldsTail(a, i, s);
      HoldsTail(a, i, t);
      OneString(a, i + 1, s[1..], t[1..]);
      assert s == [s[0]] + s[1..] && t == [t[0]] + t[1..];
    }
  }
}
