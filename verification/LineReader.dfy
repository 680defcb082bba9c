/** The AT channel's line reader: a fixed buffer filled by arbitrary reads and
    cut in place. */
module LineReading {
  import opened Common
  import opened LineSpec

  /** What a read means for the prompt case. */
  lemma {:induction false} PromptStep(
      w: string, p: nat, chunks: seq<string>, max: nat, got: string, v: string, unread: seq<string>)
    requires p < max && Deliverable(chunks)
    requires got == (if chunks == [] then [] else chunks[0][..Portion(chunks, max - p)]) && v == Strip(w + got)
    requires unread == if chunks == [] then [] else AfterRead(chunks, Portion(chunks, max - p))
    ensures Deliverable(unread) && p + |got| <= max && (got == [] <==> chunks == [])
    ensures PromptRead(w, p, chunks, max) <==>
            got != [] && (IsPrompt(v) || (NoEol(v) && PromptRead(v, p + |got|, unread, max)))
  {
    if chunks != [] {
      ReadSplits(chunks, Portion(chunks, max - p));
    }
  }

  lemma {:induction false} PartialStripped(w: string)
    requires NoEol(w)
    ensures Strip(w) == w
  {
    StripAt(w, 0);
  }

  lemma {:induction false} NotBlank(c: string)
    requires c != [] && !IsEol(c[0])
    ensures Strip(c) == c
  {
    StripAt(c, 0);
  }

  lemma {:induction false} Tail(a: string, g: string, c: nat)
    requires c <= |a|
    ensures (a + g)[c..] == a[c..] + g
  {
  }

  lemma {:induction false} Regroup(w: string, got: string, unread: string, rest: string)
    requires rest == got + unread
    ensures w + rest == w + got + unread
  {
  }

  /** The buffer with the cursor at `cur`, `gone` blanks of `s` dropped, came to be
      filled after the `b` bytes buffered at first: its origin in `s` is where the
      reference has it, or will have it once the remaining blanks are read. */
  ghost predicate Aligned(s: string, b: nat, gone: nat, cur: nat, max: nat)
  {
    && 0 < max && cur <= gone <= Blanks(s)
    && Origin(s, b, max) == Skipped(Blanks(s), gone - cur, max) && Min(Blanks(s), b) <= gone - cur
  }

  class LineReader {
    /** Capacity offered to read().  The array has two cells more: one for the
        terminator, one because after a prompt the cursor steps over it. */
    const max: nat
    const buf: array<char>
    var cur: nat
    /** What the device still delivers: one read returns at most one chunk. */
    var chunks: seq<string>

    ghost predicate Valid()
      reads this, buf
    {
      && buf.Length == max + 2
      && 0 < max
      && cur <= max + 1
      && buf[max] == NUL && buf[max + 1] == NUL
      && Deliverable(chunks)
    }

    /** Index of the first NUL at or after the cursor. */
    ghost function End(i: nat): (e: nat)
      requires i < buf.Length && buf[buf.Length - 1] == NUL
      reads this, buf
      ensures i <= e < buf.Length && buf[e] == NUL
      ensures forall j :: i <= j < e ==> buf[j] != NUL
      decreases buf.Length - i
    {
      if buf[i] == NUL then i else End(i + 1)
    }

    /** The part of the stream not yet returned: buffered bytes, then unread ones. */
    ghost function Rest(): string
      requires Valid()
      reads this, buf
    {
      buf[cur..End(cur)] + Concat(chunks)
    }

    constructor (capacity: nat, stream: seq<string>)
      requires 0 < capacity
      requires Deliverable(stream)
      ensures Valid() && fresh(buf) && max == capacity && chunks == stream && cur == 0
      ensures forall i :: 0 <= i <= max + 1 ==> buf[i] == NUL
      ensures Rest() == Concat(stream)
    {
      max := capacity;
      buf := new char[capacity + 2](_ => NUL);
      cur := 0;
      chunks := stream;
      new;
      assert End(0) == 0;
      assert buf[0..0] == [];
    }

    method SkipNewlines(ghost pRead: nat)
      requires Valid() && cur <= pRead <= max && buf[pRead] == NUL
      modifies this`cur
      ensures Valid() && old(cur) <= cur <= pRead
      ensures forall i :: old(cur) <= i < cur ==> IsEol(buf[i])
      ensures !IsEol(buf[cur])
    {
      while buf[cur] == '\r' || buf[cur] == '\n'
        invariant old(cur) <= cur <= pRead
        invariant forall i :: old(cur) <= i < cur ==> IsEol(buf[i])
        decreases pRead - cur
      {
        cur := cur + 1;
      }
    }

    /** findNextEOL at the cursor: None stands for NULL. */
    method FindNextEol(ghost pRead: nat) returns (eol: Option<nat>)
      requires Valid() && cur <= pRead <= max && buf[pRead] == NUL
      requires forall i :: cur <= i < pRead ==> buf[i] != NUL
      ensures eol.Some? ==> cur <= eol.value <= pRead
      ensures eol.Some? && eol.value < pRead ==> IsEol(buf[eol.value])
      ensures eol.Some? && eol.value < pRead ==> forall i :: cur <= i < eol.value ==> !IsEol(buf[i])
      ensures eol.Some? && eol.value == pRead ==> pRead == cur + 2 && buf[cur] == '>' && buf[cur + 1] == ' '
      ensures eol.None? ==> forall i :: cur <= i < pRead ==> !IsEol(buf[i])
      ensures pRead == cur + 2 && buf[cur] == '>' && buf[cur + 1] == ' ' ==> eol == Some(pRead)
    {
      if buf[cur] == '>' && buf[cur + 1] == ' ' && buf[cur + 2] == NUL {
        return Some(cur + 2);
      }
      var p := cur;
      while buf[p] != NUL && buf[p] != '\r' && buf[p] != '\n'
        invariant cur <= p <= pRead
        invariant forall i :: cur <= i < p ==> !IsEol(buf[i])
        decreases pRead - p
      {
        p := p + 1;
      }
      eol := if buf[p] == NUL then None else Some(p);
    }

    /** memmove of the partial line, terminator included, to the front. */
    method MoveUp() returns (len: nat)
      requires Valid() && cur <= max
      modifies this`cur, buf
      ensures Valid() && cur == 0 && len <= max && buf[len] == NUL
      ensures buf[..len] == old(buf[cur..End(cur)])
      ensures chunks == old(chunks)
    {
      var from := cur;
      ghost var e := End(from);
      len := 0;
      while buf[from + len] != NUL
        invariant from + len <= e
        decreases e - (from + len)
      {
        len := len + 1;
      }
      ghost var before := buf[..];
      for i := 0 to len + 1
        invariant forall j :: 0 <= j < i ==> buf[j] == before[from + j]
        invariant forall j :: i <= j <= max + 1 ==> buf[j] == before[j]
      {
        buf[i] := buf[from + i];
      }
      cur := 0;
      assert buf[..len] == before[from..e];
    }

    /** What one read of at most `room` bytes delivers. */
    ghost function Delivered(room: nat): string
      reads this
    {
      if chunks == [] then [] else chunks[0][..Portion(chunks, room)]
    }

    ghost function Undelivered(room: nat): seq<string>
      reads this
    {
      if chunks == [] then [] else AfterRead(chunks, Portion(chunks, room))
    }

    /** One read() into the buffer at `pRead`, as much of the next chunk as fits. */
    method Read(pRead: nat, ghost got: string) returns (count: nat)
      requires Valid() && pRead < max && got == Delivered(max - pRead)
      modifies this`chunks, buf
      ensures Valid() && count == |got| && pRead + count <= max && NulFree(got)
      ensures buf[..pRead + count] == old(buf[..pRead]) + got
      ensures chunks == old(Undelivered(max - pRead)) && Concat(old(chunks)) == got + Concat(chunks)
      ensures forall i :: pRead + count <= i < buf.Length ==> buf[i] == old(buf[i])
    {
      count := 0;
      if chunks != [] {
        var chunk := chunks[0];
        count := if |chunk| <= max - pRead then |chunk| else max - pRead;
        ReadSplits(chunks, count);
        CopyIn(pRead, chunk, count);
        chunks := AfterRead(chunks, count);
      }
    }

    method CopyIn(at: nat, chunk: string, count: nat)
      requires Valid() && at + count <= max && count <= |chunk|
      modifies buf
      ensures Valid() && buf[..at + count] == old(buf[..at]) + chunk[..count]
      ensures forall i :: at + count <= i < buf.Length ==> buf[i] == old(buf[i])
    {
      for i := 0 to count
        invariant buf[..at + i] == old(buf[..at]) + chunk[..i]
        invariant forall j :: at + i <= j < buf.Length ==> buf[j] == old(buf[j])
      {
        buf[at + i] := chunk[i];
        assert buf[..at + i + 1] == buf[..at + i] + [chunk[i]];
      }
    }

    /** Between the steps of one ReadLine that started with stream `s`: `gone`
        leading line ends are dropped, and the rest of `s` is what lies between
        the cursor and `top` followed by what is unread. */
    ghost predicate Window(s: string, gone: nat, top: nat)
      reads this, buf
    {
      && Valid()
      && cur <= top <= max
      && buf[top] == NUL
      && (forall i :: cur <= i < top ==> buf[i] != NUL)
      && gone <= |s|
      && (forall i :: 0 <= i < gone ==> IsEol(s[i]))
      && s[gone..] == buf[cur..top] + Concat(chunks)
    }

    /** The buffered bytes hold no line end. */
    ghost predicate Partial(s: string, gone: nat, top: nat)
      reads this, buf
    {
      Window(s, gone, top) && cur <= gone && (forall i :: cur <= i < top ==> !IsEol(buf[i]))
    }

    /** A line end (or, at `top`, the prompt) was found at `p`. */
    ghost predicate Found(s: string, gone: nat, top: nat, p: nat)
      reads this, buf
    {
      && Window(s, gone, top) && cur <= p <= top && !IsEol(buf[cur])
      && (p < top ==> IsEol(buf[p]) && forall i :: cur <= i < p ==> !IsEol(buf[i]))
      && (p == top ==> p == cur + 2 && buf[cur] == '>' && buf[cur + 1] == ' ')
    }

    /** What is buffered and holds no line end begins the unfinished line. */
    lemma {:induction false} PartialLine(s: string, gone: nat, top: nat)
      requires Partial(s, gone, top)
      ensures gone + (top - cur) <= |s| && forall i :: gone <= i < gone + (top - cur) ==> !IsEol(s[i])
      ensures cur < top ==> Blanks(s) == gone && LineEnd(s, gone) >= gone + (top - cur)
    {
      assert |s[gone..]| == |s| - gone;
      forall i | gone <= i < gone + (top - cur)
        ensures !IsEol(s[i])
      {
        assert s[i] == s[gone..][i - gone] == buf[cur + (i - gone)];
      }
      assert cur < top ==> !IsEol(s[gone]);
    }

    /** Leading line ends lie within the leading blanks. */
    lemma {:induction false} GoneAreBlanks(s: string, gone: nat, top: nat)
      requires Window(s, gone, top)
      ensures gone <= Blanks(s)
      ensures cur < top && !IsEol(buf[cur]) ==> Blanks(s) == gone
    {
      if cur < top {
        assert s[gone..][0] == buf[cur];
      }
    }

    /** A full buffer with something in it is what the reference calls too long, and
        what it leaves is what is unread. */
    lemma {:induction false} FullIsTooLong(s: string, b: nat, gone: nat)
      requires Partial(s, gone, max) && Aligned(s, b, gone, cur, max) && cur < max
      ensures TooLong(s, b, max) && s[Origin(s, b, max) + max..] == Concat(chunks)
    {
      PartialLine(s, gone, max);
      assert Origin(s, b, max) == gone - cur;
      assert s[gone..][max - cur..] == s[gone + (max - cur)..];
      assert s[gone..] == buf[cur..max] + Concat(chunks);
    }

    /** A line end found, or the end of the stream, means it was not. */
    lemma {:induction false} FoundFits(s: string, b: nat, gone: nat, top: nat, p: nat)
      requires Found(s, gone, top, p) && p < top && Aligned(s, b, gone, cur, max)
      ensures !TooLong(s, b, max)
    {
      GoneAreBlanks(s, gone, top);
      assert s[gone..][p - cur] == buf[p];
      assert LineEnd(s, gone) <= gone + (p - cur);
    }

    lemma {:induction false} BufferedFits(s: string, b: nat, gone: nat, top: nat, p: nat)
      requires Found(s, gone, top, p) && p < top && gone + (p - cur) < max
      ensures !TooLong(s, b, max)
    {
      GoneAreBlanks(s, gone, top);
      assert s[gone..][p - cur] == buf[p];
      assert LineEnd(s, gone) <= gone + (p - cur);
    }

    lemma {:induction false} EndFits(s: string, b: nat, gone: nat, top: nat)
      requires Partial(s, gone, top) && top < max && chunks == [] && Aligned(s, b, gone, cur, max)
      ensures !TooLong(s, b, max)
    {
      assert |s[gone..]| == top - cur;
    }

    /** Scanning the window from the cursor: skip line ends, then look for one. */
    method Scan(ghost s: string, ghost gone0: nat, ghost top: nat) returns (eol: Option<nat>, ghost gone: nat)
      requires Window(s, gone0, top)
      modifies this`cur
      ensures Window(s, gone, top) && old(cur) <= cur && gone - gone0 == cur - old(cur)
      ensures buf[cur..top] == Strip(buf[old(cur)..top])
      ensures eol.Some? ==> Found(s, gone, top, eol.value)
      ensures eol == Some(top) <==> IsPrompt(buf[cur..top])
      ensures eol.None? <==> NoEol(buf[cur..top]) && !IsPrompt(buf[cur..top])
    {
      ghost var from := cur;
      SkipNewlines(top);
      gone := gone0 + (cur - from);
      SkippedTo(s, gone0, from, top);
      eol := FindNextEol(top);
      ScanResult(top, eol);
    }

    /** Stepping from `from` over line ends to the cursor. */
    lemma {:induction false} SkippedTo(s: string, gone0: nat, from: nat, top: nat)
      requires Valid() && from <= cur <= top <= max && buf[top] == NUL && !IsEol(buf[cur])
      requires forall i :: from <= i < cur ==> IsEol(buf[i])
      requires forall i :: from <= i < top ==> buf[i] != NUL
      requires gone0 <= |s| && s[gone0..] == buf[from..top] + Concat(chunks) && forall i :: 0 <= i < gone0 ==> IsEol(s[i])
      ensures Window(s, gone0 + (cur - from), top) && buf[cur..top] == Strip(buf[from..top])
    {
      var n, w := cur - from, buf[from..top];
      forall i | 0 <= i < n
        ensures IsEol(w[i]) && s[gone0 + i] == w[i]
      {
        assert w[i] == buf[from + i] && s[gone0..][i] == s[gone0 + i];
      }
      forall i | gone0 <= i < gone0 + n
        ensures IsEol(s[i])
      {
        assert s[gone0 + (i - gone0)] == w[i - gone0];
      }
      assert n < |w| ==> w[n] == buf[cur];
      StripAt(w, n);
      assert w[n..] == buf[cur..top];
      assert s[gone0 + n..] == s[gone0..][n..];
    }

    lemma {:induction false} ScanResult(top: nat, eol: Option<nat>)
      requires Valid() && cur <= top <= max && buf[top] == NUL
      requires eol.Some? ==> cur <= eol.value <= top
      requires eol.Some? && eol.value < top ==> IsEol(buf[eol.value])
      requires eol.Some? && eol.value == top ==> top == cur + 2 && buf[cur] == '>' && buf[cur + 1] == ' '
      requires eol.None? ==> forall i :: cur <= i < top ==> !IsEol(buf[i])
      requires top == cur + 2 && buf[cur] == '>' && buf[cur + 1] == ' ' ==> eol == Some(top)
      ensures eol == Some(top) <==> IsPrompt(buf[cur..top])
      ensures eol.None? <==> NoEol(buf[cur..top]) && !IsPrompt(buf[cur..top])
    {
      var w := buf[cur..top];
      if eol.Some? && eol.value < top {
        assert w[eol.value - cur] == buf[eol.value];
      }
    }

    /** A line end, or the prompt, was found in what the reference does not ditch. */
    ghost predicate FoundIn(s: string, b: nat, gone: nat, top: nat, p: nat)
      reads this, buf
    {
      Found(s, gone, top, p) && (p < top ==> !TooLong(s, b, max))
    }

    /** Waiting for more: nothing but an unfinished line is buffered. */
    ghost predicate Waiting(s: string, b: nat, gone: nat, top: nat)
      reads this, buf
    {
      Partial(s, gone, top) && Aligned(s, b, gone, cur, max)
    }

    /** What is done before the first read of a ReadLine. */
    method Prepare(ghost s: string, ghost w: string)
      returns (eol: Option<nat>, pRead: nat, ghost gone: nat, ghost top: nat)
      requires Valid() && s == Rest() && w == buf[cur..End(cur)]
      modifies this`cur, buf
      ensures chunks == old(chunks) && |w| <= max
      ensures eol.Some? ==> FoundIn(s, |w|, gone, top, eol.value)
      ensures eol.None? ==> pRead == top && Waiting(s, |w|, gone, top) && !IsPrompt(buf[cur..top])
      ensures PromptComes(w, chunks, max) <==>
              if eol.Some? then eol == Some(top) else PromptRead(buf[cur..top], pRead, chunks, max)
      ensures w == [] ==> cur == 0 && eol == None && pRead == 0
      ensures w == [] ==> forall i :: 1 <= i < buf.Length ==> buf[i] == old(buf[i])
    {
      if buf[cur] == NUL {
        Restart(s);
        eol, pRead, gone, top := None, 0, 0, 0;
      } else {
        assert w[0] == buf[cur];
        eol, pRead, gone, top := Resume(s, w);
      }
    }

    /** Nothing is buffered: start at the front. */
    method Restart(ghost s: string)
      requires Valid() && s == Concat(chunks)
      modifies this`cur, buf
      ensures Waiting(s, 0, 0, 0) && cur == 0 && buf[0..0] == []
      ensures forall i :: 1 <= i < buf.Length ==> buf[i] == old(buf[i])
    {
      cur := 0;
      buf[0] := NUL;
      assert buf[0..0] == [];
    }

    /** The same with bytes left from the read before. */
    method Resume(ghost s: string, ghost w: string)
      returns (eol: Option<nat>, pRead: nat, ghost gone: nat, ghost top: nat)
      requires Valid() && s == Rest() && w == buf[cur..End(cur)] && w != []
      modifies this`cur, buf
      ensures chunks == old(chunks) && |w| <= max
      ensures eol.Some? ==> FoundIn(s, |w|, gone, top, eol.value)
      ensures eol.None? ==> pRead == top && Waiting(s, |w|, gone, top) && !IsPrompt(buf[cur..top])
      ensures PromptComes(w, chunks, max) <==>
              if eol.Some? then eol == Some(top) else PromptRead(buf[cur..top], pRead, chunks, max)
    {
      pRead := 0;
      top := End(cur);
      assert top <= max;
      eol, gone := Scan(s, 0, top);
      ghost var v := buf[cur..top];
      GoneAreBlanks(s, gone, top);
      if eol.Some? {
        if eol.value < top {
          BufferedFits(s, |w|, gone, top, eol.value);
        }
      } else {
        pRead := MoveToFront(s, gone, top, v, |w|);
        top := pRead;
      }
    }

    /** An unfinished line is moved up. */
    method MoveToFront(ghost s: string, ghost gone: nat, ghost top: nat, ghost v: string, ghost b: nat)
      returns (pRead: nat)
      requires Window(s, gone, top) && v == buf[cur..top] && NoEol(v) && b == gone + |v|
      modifies this`cur, buf
      ensures chunks == old(chunks) && pRead == |v| && Waiting(s, b, gone, pRead) && buf[cur..pRead] == v
    {
      assert End(cur) == top;
      WindowBytes(s, gone, top, v);
      pRead := MoveUp();
      MovedUp(s, gone, v, b);
    }

    lemma {:induction false} WindowBytes(s: string, gone: nat, top: nat, w: string)
      requires Window(s, gone, top) && w == buf[cur..top]
      ensures NulFree(w) && |w| <= max
    {
    }

    /** The partial line at the front is what was behind the cursor. */
    lemma {:induction false} MovedUp(s: string, gone: nat, v: string, b: nat)
      requires Valid() && cur == 0 && |v| <= max && buf[|v|] == NUL && buf[..|v|] == v && NoEol(v) && NulFree(v)
      requires gone <= |s| && s[gone..] == v + Concat(chunks) && forall i :: 0 <= i < gone ==> IsEol(s[i])
      requires b == gone + |v|
      ensures Waiting(s, b, gone, |v|) && buf[cur..|v|] == v
    {
      assert buf[0..|v|] == v;
      forall i | 0 <= i < |v|
        ensures buf[i] != NUL && !IsEol(buf[i])
      {
        assert buf[i] == v[i] && v[i] in v;
      }
      GoneAreBlanks(s, gone, |v|);
    }

    /** A full buffer is ditched, and with it the line it holds. */
    method Ditch(ghost s0: string, ghost b0: nat, ghost gone0: nat)
      returns (ghost s: string, ghost b: nat, ghost gone: nat)
      requires Waiting(s0, b0, gone0, max)
      modifies this`cur, buf
      ensures Waiting(s, b, gone, 0) && buf[cur..0] == []
      ensures Kin(s0, b0, s, b)
    {
      s, b, gone := s0, b0, gone0;
      if cur < max {
        FullIsTooLong(s0, b0, gone0);
        s, b, gone := Concat(chunks), 0, 0;
        Restart(s);
      } else {
        DropBlanks(s0, b0, gone0);
      }
    }

    /** A buffer full of blanks. */
    method DropBlanks(ghost s: string, ghost b: nat, ghost gone: nat)
      requires Waiting(s, b, gone, max) && cur == max
      modifies this`cur, buf
      ensures Waiting(s, b, gone, 0) && cur == 0 && buf[0..0] == []
    {
      assert buf[max..max] == [];
      cur := 0;
      buf[0] := NUL;
      assert buf[0..0] == [];
    }

    /** One read behind the bytes `w`, terminated. */
    method ReadOn(pRead: nat, ghost w: string, ghost got: string) returns (count: nat)
      requires Valid() && cur <= pRead < max && w == buf[cur..pRead] && got == Delivered(max - pRead)
      modifies this`chunks, buf
      ensures Valid() && count == |got| && pRead + count <= max && buf[pRead + count] == NUL
      ensures buf[cur..pRead + count] == w + got && NulFree(got)
      ensures chunks == old(Undelivered(max - pRead)) && Concat(old(chunks)) == got + Concat(chunks)
      ensures forall i :: pRead + count < i < buf.Length ==> buf[i] == old(buf[i])
    {
      ghost var front := buf[..pRead];
      count := Read(pRead, got);
      Terminate(pRead + count);
      Tail(front, got, cur);
      assert buf[..pRead + count] == front + got;
      assert buf[cur..pRead + count] == buf[..pRead + count][cur..];
    }

    /** One read appended to the window. */
    method Append(ghost s: string, ghost b: nat, ghost gone: nat, pRead: nat, ghost w: string, ghost got: string)
      returns (count: nat)
      requires Waiting(s, b, gone, pRead) && pRead < max && w == buf[cur..pRead] && got == Delivered(max - pRead)
      modifies this`chunks, buf
      ensures count == |got| && pRead + count <= max
      ensures Window(s, gone, pRead + count) && buf[cur..pRead + count] == w + got
      ensures count == 0 ==> Waiting(s, b, gone, pRead)
      ensures chunks == old(Undelivered(max - pRead)) && |Concat(old(chunks))| == count + |Concat(chunks)|
      ensures forall i :: pRead + count < i < buf.Length ==> buf[i] == old(buf[i])
    {
      PartialBytes(s, gone, pRead, w);
      ghost var rest := Concat(chunks);
      count := ReadOn(pRead, w, got);
      Regroup(w, got, Concat(chunks), rest);
      WindowOf(s, gone, w + got, pRead + count);
      if count == 0 {
        assert w + got == w;
        PartialOf(s, gone, pRead, w);
      }
    }

    lemma {:induction false} PartialBytes(s: string, gone: nat, top: nat, w: string)
      requires Partial(s, gone, top) && w == buf[cur..top]
      ensures NulFree(w) && NoEol(w) && s[gone..] == w + Concat(chunks)
    {
    }

    lemma {:induction false} PartialOf(s: string, gone: nat, top: nat, w: string)
      requires Window(s, gone, top) && w == buf[cur..top] && cur <= gone && NoEol(w)
      ensures Partial(s, gone, top)
    {
      forall i | cur <= i < top
        ensures !IsEol(buf[i])
      {
        assert w[i - cur] == buf[i];
      }
    }

    method Terminate(top: nat)
      requires Valid() && top <= max
      modifies buf
      ensures Valid() && buf[top] == NUL && buf[..top] == old(buf[..top])
      ensures forall i :: top < i < buf.Length ==> buf[i] == old(buf[i])
    {
      buf[top] := NUL;
    }

    lemma {:induction false} WindowOf(s: string, gone: nat, w: string, top: nat)
      requires Valid() && cur <= top <= max && buf[top] == NUL && buf[cur..top] == w
      requires NulFree(w)
      requires gone <= |s| && s[gone..] == w + Concat(chunks) && forall i :: 0 <= i < gone ==> IsEol(s[i])
      ensures Window(s, gone, top)
    {
      forall i | cur <= i < top
        ensures buf[i] != NUL
      {
        assert buf[i] == w[i - cur] && w[i - cur] in w;
      }
    }

    /** What the array does when nothing is buffered and the first read delivers, as
        a whole, a chunk that starts with a line and ends it, or is the prompt. */
    ghost predicate AtOnce()
      requires Valid()
      reads this, buf
    {
      buf[cur] == NUL && Whole(chunks)
    }

    /** After a read that delivered `got` behind `w`. */
    ghost predicate Laid(w: string, got: string, unread: seq<string>, top: nat)
      reads this, buf
    {
      cur <= top < buf.Length && buf[cur..top] == Strip(w + got) && chunks == unread
    }

    /** The outcome of a turn. */
    ghost predicate Turned(
        s: string, b: nat, gone: nat, top: nat, count: nat, eol: Option<nat>, asked: bool)
      reads this, buf
    {
      if count == 0 then eol.None? && Waiting(s, b, gone, top) && top < max && chunks == [] && !asked
      else if eol.Some? then FoundIn(s, b, gone, top, eol.value) && (asked <==> eol.value == top)
      else
        && Waiting(s, b, gone, top) && !IsPrompt(buf[cur..top])
        && asked == PromptRead(buf[cur..top], top, chunks, max)
    }

    lemma {:induction false} TurnedOf(
        s: string, b: nat, gone: nat, top: nat, count: nat, eol: Option<nat>, asked: bool, v: string)
      requires Window(s, gone, top) && v == buf[cur..top] && count > 0
      requires eol.Some? ==> FoundIn(s, b, gone, top, eol.value)
      requires eol.None? ==> Waiting(s, b, gone, top)
      requires eol == Some(top) <==> IsPrompt(v)
      requires eol.None? <==> NoEol(v) && !IsPrompt(v)
      requires asked <==> IsPrompt(v) || (NoEol(v) && PromptRead(v, top, chunks, max))
      ensures Turned(s, b, gone, top, count, eol, asked)
    {
    }

    /** The read and the scan after it. */
    method Turn(
        ghost s: string, ghost b: nat, ghost gone0: nat, pRead0: nat, ghost w: string, ghost asked: bool,
        ghost got: string, ghost unread: seq<string>, ghost v: string)
      returns (count: nat, eol: Option<nat>, pRead: nat, ghost gone: nat)
      requires Waiting(s, b, gone0, pRead0) && pRead0 < max && w == buf[cur..pRead0]
      requires got == Delivered(max - pRead0) && unread == Undelivered(max - pRead0) && pRead0 + |got| <= max
      requires Deliverable(unread) && (got == [] <==> chunks == []) && v == Strip(w + got)
      requires asked <==> got != [] && (IsPrompt(v) || (NoEol(v) && PromptRead(v, pRead0 + |got|, unread, max)))
      modifies this`cur, this`chunks, buf
      ensures Turned(s, b, gone, pRead, count, eol, asked)
      ensures |Concat(old(chunks))| == count + |Concat(chunks)|
      ensures pRead == pRead0 + |got| && Laid(w, got, unread, pRead)
      ensures forall i :: pRead < i < buf.Length ==> buf[i] == old(buf[i])
    {
      PartialBytes(s, gone0, pRead0, w);
      count := Append(s, b, gone0, pRead0, w, got);
      pRead, gone, eol := pRead0 + count, gone0, None;
      if count > 0 {
        eol, gone := LookAgain(s, b, gone0, pRead, w + got, count, asked);
        assert w + got + [] == w + got;
      } else {
        assert w + got == w;
        PartialStripped(w);
      }
    }

    method LookAgain(
        ghost s: string, ghost b: nat, ghost gone0: nat, ghost top: nat, ghost w: string, ghost count: nat, ghost asked: bool)
      returns (eol: Option<nat>, ghost gone: nat)
      requires Window(s, gone0, top) && Aligned(s, b, gone0, cur, max) && buf[cur..top] == w && count > 0
      requires asked <==> IsPrompt(Strip(w)) || (NoEol(Strip(w)) && PromptRead(Strip(w), top, chunks, max))
      modifies this`cur
      ensures Turned(s, b, gone, top, count, eol, asked) && Laid(w, [], chunks, top)
    {
      eol, gone := Rescan(s, b, gone0, top, w);
      TurnedOf(s, b, gone, top, count, eol, asked, Strip(w));
      assert w + [] == w;
    }

    /** The scan after a read. */
    method Rescan(ghost s: string, ghost b: nat, ghost gone0: nat, ghost top: nat, ghost w: string)
      returns (eol: Option<nat>, ghost gone: nat)
      requires Window(s, gone0, top) && Aligned(s, b, gone0, cur, max) && buf[cur..top] == w
      modifies this`cur
      ensures Window(s, gone, top) && buf[cur..top] == Strip(w)
      ensures eol.Some? ==> FoundIn(s, b, gone, top, eol.value)
      ensures eol.None? ==> Waiting(s, b, gone, top)
      ensures eol == Some(top) <==> IsPrompt(buf[cur..top])
      ensures eol.None? <==> NoEol(buf[cur..top]) && !IsPrompt(buf[cur..top])
    {
      eol, gone := Scan(s, gone0, top);
      GoneAreBlanks(s, gone, top);
      if eol.Some? && eol.value < top {
        FoundFits(s, b, gone, top, eol.value);
      }
      if eol.None? {
        PartialOf(s, gone, top, buf[cur..top]);
      }
    }

    /** Where the read loop is: what the buffer now stands for, and what is known of
        the stream it began with. */
    ghost predicate Reading(
        s0: string, b0: nat, s: string, b: nat, gone: nat, top: nat, eol: Option<nat>, asked: bool)
      reads this, buf
    {
      Kin(s0, b0, s, b) && Turned(s, b, gone, top, 1, eol, asked)
    }

    /** `s` is what ditching has left of `s0`. */
    ghost predicate Kin(s0: string, b0: nat, s: string, b: nat)
    {
      && 0 < max && Survivors(s, b, max) == Survivors(s0, b0, max)
      && ((s == s0 && b == b0) || TooLong(s0, b0, max))
    }

    /** The read loop: until a line end is buffered or the stream ends. */
    method Await(ghost s0: string, ghost w: string)
      returns (eol: Option<nat>, ghost s: string, ghost b: nat, ghost gone: nat, ghost top: nat)
      requires Valid() && s0 == Rest() && w == buf[cur..End(cur)]
      modifies this`cur, this`chunks, buf
      ensures |w| <= max && Kin(s0, |w|, s, b)
      ensures eol.Some? ==> FoundIn(s, b, gone, top, eol.value)
      ensures eol.None? ==> Waiting(s, b, gone, top) && top < max && chunks == []
      ensures PromptComes(w, old(chunks), max) <==> eol.Some? && eol.value == top
      ensures old(AtOnce()) ==>
                eol.Some? && Read1(old(chunks), top) && forall i :: top < i < buf.Length ==> buf[i] == old(buf[i])
    {
      ghost var atOnce, first := AtOnce(), chunks;
      var pRead;
      ghost var asked;
      eol, pRead, gone, top, asked := Begin(s0, w, atOnce);
      s, b := s0, |w|;
      while eol.None?
        invariant Reading(s0, |w|, s, b, gone, top, eol, asked) && (eol.None? ==> pRead == top)
        invariant atOnce ==> if eol.None? then pRead == 0 && cur == 0 && chunks == first else Read1(first, top)
        invariant atOnce ==> forall i :: top < i < buf.Length ==> buf[i] == old(buf[i])
        decreases eol.None?, |Concat(chunks)|
      {
        var count;
        count, eol, pRead, s, b, gone := NextTurn(s0, |w|, s, b, gone, pRead, asked, atOnce);
        top := pRead;
        if count == 0 {
          return;
        }
      }
    }

    method Begin(ghost s: string, ghost w: string, ghost atOnce: bool)
      returns (eol: Option<nat>, pRead: nat, ghost gone: nat, ghost top: nat, ghost asked: bool)
      requires Valid() && s == Rest() && w == buf[cur..End(cur)] && (atOnce ==> AtOnce())
      modifies this`cur, buf
      ensures chunks == old(chunks) && |w| <= max && asked == PromptComes(w, chunks, max)
      ensures Reading(s, |w|, s, |w|, gone, top, eol, asked) && (eol.None? ==> pRead == top)
      ensures atOnce ==> eol.None? && pRead == 0 && cur == 0 && forall i :: 0 < i < buf.Length ==> buf[i] == old(buf[i])
    {
      eol, pRead, gone, top := Prepare(s, w);
      asked := PromptComes(w, chunks, max);
    }

    /** One turn of that loop. */
    method NextTurn(
        ghost s0: string, ghost b0: nat, ghost s1: string, ghost b1: nat, ghost gone1: nat, pRead1: nat,
        ghost asked: bool, ghost atOnce: bool)
      returns (count: nat, eol: Option<nat>, pRead: nat, ghost s: string, ghost b: nat, ghost gone: nat)
      requires Reading(s0, b0, s1, b1, gone1, pRead1, None, asked)
      requires atOnce ==> pRead1 == 0 && cur == 0 && Whole(chunks)
      modifies this`cur, this`chunks, buf
      ensures Kin(s0, b0, s, b) && Turned(s, b, gone, pRead, count, eol, asked)
      ensures |Concat(old(chunks))| == count + |Concat(chunks)|
      ensures atOnce ==> eol.Some? && Read1(old(chunks), pRead)
      ensures atOnce ==> forall i :: pRead < i < buf.Length ==> buf[i] == old(buf[i])
    {
      pRead, s, b, gone := pRead1, s1, b1, gone1;
      if pRead == max {
        s, b, gone := Ditch(s, b, gone);
        pRead := 0;
      }
      count, eol, pRead, gone := Fill(s, b, gone, pRead, asked, atOnce);
    }

    /** The rest of a turn of that loop. */
    method Fill(ghost s: string, ghost b: nat, ghost gone0: nat, pRead0: nat, ghost asked: bool, ghost atOnce: bool)
      returns (count: nat, eol: Option<nat>, pRead: nat, ghost gone: nat)
      requires Waiting(s, b, gone0, pRead0) && pRead0 < max
      requires asked == PromptRead(buf[cur..pRead0], pRead0, chunks, max)
      requires atOnce ==> pRead0 == 0 && cur == 0 && Whole(chunks)
      modifies this`cur, this`chunks, buf
      ensures Turned(s, b, gone, pRead, count, eol, asked)
      ensures |Concat(old(chunks))| == count + |Concat(chunks)|
      ensures atOnce ==> eol.Some? && Read1(old(chunks), pRead)
      ensures forall i :: pRead < i < buf.Length ==> buf[i] == old(buf[i])
    {
      ghost var first, w := chunks, buf[cur..pRead0];
      ghost var got, unread := Delivered(max - pRead0), Undelivered(max - pRead0);
      PromptStep(w, pRead0, chunks, max, got, Strip(w + got), unread);
      count, eol, pRead, gone := Turn(s, b, gone0, pRead0, w, asked, got, unread, Strip(w + got));
      if atOnce {
        WholeChunk(first, pRead, w, got, unread, count, eol, asked, s, b, gone);
      }
    }

    /** The first read delivers a chunk that starts with a line and ends it, or is the prompt. */
    ghost predicate Whole(next: seq<string>)
      reads this
    {
      && next != [] && 0 < |next[0]| <= max && !IsEol(next[0][0])
      && (LineEnd(next[0], 0) < |next[0]| || IsPrompt(next[0]))
    }

    /** Exactly the first chunk is in the buffer, from its front to `top`. */
    ghost predicate Read1(before: seq<string>, top: nat)
      reads this, buf
    {
      && before != [] && top == |before[0]| < buf.Length && cur == 0
      && buf[0..top] == before[0] && chunks == before[1..]
    }

    lemma {:induction false} WholeChunk(
        before: seq<string>, top: nat, w: string, got: string, unread: seq<string>,
        count: nat, eol: Option<nat>, asked: bool, s: string, b: nat, gone: nat)
      requires Whole(before)
      requires got == before[0][..Portion(before, max)] && unread == AfterRead(before, Portion(before, max))
      requires w == [] && Laid(w, got, unread, top) && top == |got| <= max && Turned(s, b, gone, top, count, eol, asked) && count != 0
      ensures eol.Some? && Read1(before, top)
    {
      var c := before[0];
      assert w + got == c;
      NotBlank(c);
      assert buf[cur..top] == c && cur == 0;
      if LineEnd(c, 0) < |c| {
        assert !NoEol(c);
      }
    }

    /** Placing the terminator over the line end and stepping past it. */
    method Cut(ghost s: string, ghost gone: nat, ghost top: nat, p: nat) returns (line: string)
      requires Found(s, gone, top, p)
      modifies this`cur, buf
      ensures Valid() && cur == p + 1 && buf[p] == NUL && line == old(buf[cur..p])
      ensures forall i :: 0 <= i < buf.Length && i != p ==> buf[i] == old(buf[i])
      ensures p == top ==> IsPrompt(line) && 3 <= cur
      ensures p < top ==> Taken(s, Some(line), Rest())
    {
      line := buf[cur..p];
      ghost var rest, after := buf[p + 1..], [];
      if p < top {
        after := rest[..top - (p + 1)] + Concat(chunks);
        CutWindow(s, gone, top, p);
        WindowEnd(s, gone, top, p);
      }
      EndHere(p);
      if p < top {
        RestBehind(top, rest, after);
      }
    }

    method EndHere(p: nat)
      requires Valid() && p <= max
      modifies this`cur, buf
      ensures Valid() && cur == p + 1 && buf[p] == NUL
      ensures forall i :: 0 <= i < buf.Length && i != p ==> buf[i] == old(buf[i])
      ensures buf[p + 1..] == old(buf[p + 1..])
    {
      buf[p] := NUL;
      cur := p + 1;
    }

    /** What lies between a line end and the end of the window. */
    lemma {:induction false} WindowEnd(s: string, gone: nat, top: nat, p: nat)
      requires Found(s, gone, top, p) && p < top
      ensures p < top <= max && buf[p + 1..][top - (p + 1)] == NUL && NulFree(buf[p + 1..][..top - (p + 1)])
    {
      var rest := buf[p + 1..];
      forall i | 0 <= i < top - (p + 1)
        ensures rest[i] != NUL
      {
        assert rest[i] == buf[p + 1 + i];
      }
    }

    lemma {:induction false} RestBehind(top: nat, rest: string, after: string)
      requires Valid() && cur <= top < buf.Length && rest == buf[cur..]
      requires rest[top - cur] == NUL && NulFree(rest[..top - cur]) && after == rest[..top - cur] + Concat(chunks)
      ensures Rest() == after
    {
      forall i | cur <= i < top
        ensures buf[i] != NUL
      {
        assert rest[..top - cur][i - cur] == buf[i];
      }
      assert rest[top - cur] == buf[top];
      EndIs(cur, top);
      assert buf[cur..top] == rest[..top - cur];
    }

    lemma {:induction false} EndIs(i: nat, e: nat)
      requires Valid() && i <= e < buf.Length && buf[e] == NUL && forall j :: i <= j < e ==> buf[j] != NUL
      ensures End(i) == e
    {
    }

    lemma {:induction false} CutWindow(s: string, gone: nat, top: nat, p: nat)
      requires Found(s, gone, top, p) && p < top
      ensures Taken(s, Some(buf[cur..p]), buf[p + 1..][..top - (p + 1)] + Concat(chunks))
    {
      var w := buf[cur..top] + Concat(chunks);
      var n := p - cur;
      assert w[n] == buf[p] && w[0] == buf[cur];
      forall i | 0 <= i < n
        ensures !IsEol(w[i])
      {
        assert w[i] == buf[cur + i];
      }
      CutTakes(s, gone, w, n);
      assert w[..n] == buf[cur..p];
      assert w[n + 1..] == buf[p + 1..][..top - (p + 1)] + Concat(chunks);
    }

    /** What is buffered. */
    ghost function Buffered(): string
      requires Valid()
      reads this, buf
    {
      buf[cur..End(cur)]
    }

    /** readline: the next line, or None at the end of the stream, for any stream
        without NULs.  The ghost result `prompt` tells that the special case for the
        SMS prompt was taken, which is known before the call; then the cursor is past
        the terminator, and bytes of older lines found there become input.  Otherwise
        the line is the first of what is left when full buffers are ditched. */
    method ReadLine() returns (line: Option<string>, ghost prompt: bool)
      requires Valid()
      modifies this`cur, this`chunks, buf
      ensures Outcome(old(Rest()), old(Buffered()), old(chunks), line, prompt)
      ensures old(AtOnce()) ==> line.Some? && chunks == old(chunks)[1..] && CutOut(old(chunks)[0], line.value)
      ensures old(AtOnce()) ==> forall i :: |old(chunks)[0]| < i < buf.Length ==> buf[i] == old(buf[i])
    {
      line, prompt := NextLine(Rest(), Buffered(), AtOnce(), chunks);
    }

    /** The same, in terms of what is buffered and unread before. */
    method NextLine(ghost s0: string, ghost w: string, ghost atOnce: bool, ghost first: seq<string>)
      returns (line: Option<string>, ghost prompt: bool)
      requires Valid() && s0 == Rest() && w == Buffered() && atOnce == AtOnce() && first == chunks
      modifies this`cur, this`chunks, buf
      ensures Outcome(s0, w, first, line, prompt)
      ensures atOnce ==> line.Some? && chunks == first[1..] && CutOut(first[0], line.value)
      ensures atOnce ==> forall i :: |first[0]| < i < buf.Length ==> buf[i] == old(buf[i])
    {
      var eol;
      ghost var s, b, gone, top;
      eol, s, b, gone, top := Await(s0, w);
      prompt := eol == Some(top);
      if eol.None? {
        line := None;
        NoneLeft(s0, w, first, s, b, gone, top);
      } else {
        line := CutLine(s0, w, s, b, gone, top, eol.value, prompt, atOnce, first);
      }
    }

    /** What a call gives: whether the prompt case is taken is known before it; if it
        is, the cursor is past the terminator, and bytes found there become input;
        if not, the line is the first of what is left when full buffers are ditched. */
    ghost predicate Outcome(s: string, w: string, before: seq<string>, line: Option<string>, prompt: bool)
      reads this, buf
    {
      && Valid() && |w| <= max && Deliverable(before)
      && (prompt <==> PromptComes(w, before, max))
      && (if prompt then Prompted(line) else Taken(Survivors(s, |w|, max), line, Rest()))
      && (line.None? ==> chunks == [])
      && (NoPrompt(s) && !TooLong(s, |w|, max) ==> !prompt)
    }

    ghost predicate Prompted(line: Option<string>)
      requires Valid()
      reads this, buf
    {
      && line.Some? && IsPrompt(line.value) && 3 <= cur && buf[cur - 1] == NUL
      && (Rest() == Concat(chunks) <==> buf[cur] == NUL)
    }

    lemma {:induction false} NoneLeft(
        s0: string, w: string, before: seq<string>, s: string, b: nat, gone: nat, top: nat)
      requires Waiting(s, b, gone, top) && top < max && chunks == [] && |w| <= max && Deliverable(before)
      requires Kin(s0, |w|, s, b) && !PromptComes(w, before, max)
      ensures Outcome(s0, w, before, None, false)
    {
      NoLineLeft(s, gone, top);
      EndFits(s, b, gone, top);
      TakenKin(s0, |w|, s, b, None, Rest());
    }

    lemma {:induction false} TakenKin(s0: string, b0: nat, s: string, b: nat, line: Option<string>, rest: string)
      requires Kin(s0, b0, s, b) && !TooLong(s, b, max) && Taken(s, line, rest)
      ensures Taken(Survivors(s0, b0, max), line, rest)
    {
      SurvivesIff(s, b, max);
    }

    /** The end of readline, once a line end or the prompt is found. */
    method CutLine(
        ghost s0: string, ghost w: string, ghost s: string, ghost b: nat, ghost gone: nat, ghost top: nat, p: nat,
        ghost prompt: bool, ghost atOnce: bool, ghost first: seq<string>)
      returns (line: Option<string>)
      requires |w| <= max && Deliverable(first) && Kin(s0, |w|, s, b) && FoundIn(s, b, gone, top, p)
      requires (prompt <==> p == top) && (prompt <==> PromptComes(w, first, max)) && (atOnce ==> Read1(first, top))
      modifies this`cur, buf
      ensures Outcome(s0, w, first, line, prompt)
      ensures atOnce ==> line.Some? && CutOut(first[0], line.value)
      ensures chunks == old(chunks) && forall i :: top < i < buf.Length ==> buf[i] == old(buf[i])
    {
      ghost var whole := buf[..];
      if p == top {
        PromptInStream(s, gone, top);
      }
      var text := Cut(s, gone, top, p);
      line := Some(text);
      if p < top {
        TakenKin(s0, |w|, s, b, line, Rest());
      } else {
        RestAfter();
      }
      if atOnce {
        CutFromFront(first[0], whole, top, p, text);
      }
    }

    /** Something is buffered unless the cursor is at a NUL. */
    lemma {:induction false} RestAfter()
      requires Valid()
      ensures Rest() == Concat(chunks) <==> buf[cur] == NUL
    {
      assert |Rest()| == End(cur) - cur + |Concat(chunks)|;
    }

    /** The chunk `c`, read into an empty buffer, with its first line cut out. */
    ghost predicate CutOut(c: string, line: string)
      reads this, buf
    {
      var p := LineEnd(c, 0);
      && |c| < buf.Length && cur == p + 1 && line == c[..p] && buf[p] == NUL && buf[|c|] == NUL
      && forall i :: 0 <= i < |c| && i != p ==> buf[i] == c[i]
    }

    lemma {:induction false} CutFromFront(c: string, whole: string, top: nat, p: nat, line: string)
      requires |whole| == buf.Length && p <= top == |c| < |whole| && whole[0..top] == c && whole[top] == NUL
      requires line == whole[0..p] && cur == p + 1 && buf[p] == NUL
      requires forall i :: 0 <= i < buf.Length && i != p ==> buf[i] == whole[i]
      requires (forall i :: 0 <= i < p ==> !IsEol(whole[i])) && (p < top ==> IsEol(whole[p]))
      ensures CutOut(c, line)
    {
      forall i | 0 <= i < top
        ensures c[i] == whole[i]
      {
      }
      assert LineEnd(c, 0) == p;
      assert line == c[..p];
    }

    lemma {:induction false} NoLineLeft(s: string, gone: nat, top: nat)
      requires Partial(s, gone, top) && chunks == []
      ensures LineEnd(s, Blanks(s)) == |s|
    {
      PartialLine(s, gone, top);
      assert |s[gone..]| == top - cur;
    }

    lemma {:induction false} PromptInStream(s: string, gone: nat, top: nat)
      requires Found(s, gone, top, top)
      ensures !NoPrompt(s)
    {
      assert s[gone..][0] == buf[cur] && s[gone..][1] == buf[cur + 1];
      assert Blanks(s) == gone;
    }
  }

  /** Taking one line off the stream, in terms of all lines of the stream. */
  lemma {:induction false} TakeLine(s: string, line: Option<string>, rest: string, taken: seq<string>, all: seq<string>)
    requires Taken(s, line, rest) && taken + Lines(s) == all
    ensures line.None? ==> taken == all
    ensures line.Some? ==> taken + [line.value] + Lines(rest) == all
  {
    FirstLine(s, Blanks(s), LineEnd(s, Blanks(s)));
    if line.Some? {
      assert taken + ([line.value] + Lines(rest)) == taken + [line.value] + Lines(rest);
    }
  }

  lemma {:induction false} RestIsShorter(s: string, line: string, rest: string, max: nat)
    requires Taken(s, Some(line), rest) && Fits(s, max) && NoPrompt(s)
    ensures |rest| < |s| && Fits(rest, max) && NoPrompt(rest)
  {
  }

  /** Draining a reader yields exactly the lines of its stream. */
  method ReadAll(r: LineReader) returns (lines: seq<string>)
    requires r.Valid() && Fits(r.Rest(), r.max) && NoPrompt(r.Rest())
    modifies r, r.buf
    ensures lines == Lines(old(r.Rest()))
  {
    lines := [];
    ghost var s := r.Rest();
    ghost var all := Lines(s);
    while true
      invariant r.Valid() && s == r.Rest() && Fits(s, r.max) && NoPrompt(s)
      invariant lines + Lines(s) == all
      decreases |s|
    {
      FittingSurvives(s, |r.Buffered()|, r.max);
      var line, _ := r.ReadLine();
      ghost var rest := r.Rest();
      TakeLine(s, line, rest, lines, all);
      if line.None? {
        return;
      }
      RestIsShorter(s, line.value, rest, r.max);
      lines := lines + [line.value];
      s := rest;
    }
  }

  /** Line-reader refinement: however the stream is cut into reads, the lines
      returned are its non-empty terminated segments, in order. */
  method ReadStream(capacity: nat, chunks: seq<string>) returns (lines: seq<string>)
    requires 0 < capacity && Deliverable(chunks)
    requires Fits(Concat(chunks), capacity) && NoPrompt(Concat(chunks))
    ensures lines == Lines(Concat(chunks))
  {
    var r := new LineReader(capacity, chunks);
    lines := ReadAll(r);
  }

  // ----- why the assumptions are needed --------------------------------------

  const FIRST: string := "xyzab\r"
  const ASK: string := "> "
  const LAST: string := "OK\r"

  lemma {:induction false} FirstEnds()
    ensures LineEnd(FIRST, 0) == 5 && FIRST[..5] == "xyzab" && NulFree(FIRST) && NulFree(ASK) && NulFree(LAST)
    ensures LineEnd(ASK, 0) == 2 && ASK[..2] == ASK
  {
    assert FIRST[5] == '\r';
    assert LineEnd(FIRST, 5) == 5;
  }

  /** A buffer that holds two bytes of an older line behind the prompt. */
  lemma {:induction false} Revived(r: LineReader)
    requires r.Valid() && 8 <= r.max && r.cur == 3 && r.chunks == [LAST]
    requires r.buf[3] == 'a' && r.buf[4] == 'b' && r.buf[5] == NUL
    ensures r.Buffered() == "ab" && r.Rest() == "abOK\r" && !PromptComes(r.Buffered(), r.chunks, r.max)
  {
    r.EndIs(3, 5);
    assert r.buf[3..5] == "ab";
    ConcatOne(LAST);
    NoPromptAgain("ab", LAST, r.max);
  }

  lemma {:induction false} ConcatOne(a: string)
    ensures Concat([a]) == a
  {
    assert [a][1..] == [];
    assert Concat([a]) == a + Concat([]);
  }

  lemma {:induction false} NoPromptAgain(w: string, end: string, max: nat)
    requires w != [] && NoEol(w) && !IsPrompt(w) && |w| + |end| <= max && Deliverable([end])
    requires end != [] && IsEol(end[|end| - 1])
    ensures !PromptComes(w, [end], max)
  {
    var v := w + end;
    assert [end][1..] == [];
    NotBlank(w);
    assert v[0] == w[0];
    NotBlank(v);
    assert end[..|end|] == end;
    PromptStep(w, |w|, [end], max, end, v, []);
    assert v[|v| - 1] == end[|end| - 1];
  }

  lemma {:induction false} RevivedLine(line: Option<string>, rest: string, max: nat)
    requires 8 <= max && Taken(Survivors("abOK\r", 2, max), line, rest)
    ensures line == Some("abOK")
  {
    var s := "abOK\r";
    assert IsEol(s[4]) && Blanks(s) == 0 && LineEnd(s, 0) == 4;
    assert s[0..4] == "abOK";
  }

  /** Why streams with a prompt are excluded: it makes the reader return bytes of the
      line before once more, in front of the line that follows. */
  method PromptRevivesOldBytes(capacity: nat) returns (lines: seq<Option<string>>)
    requires 8 <= capacity
    ensures lines == [Some("xyzab"), Some("> "), Some("abOK")]
  {
    FirstEnds();
    var r := new LineReader(capacity, [FIRST, ASK, LAST]);
    var first, _ := r.ReadLine();
    assert r.chunks == [ASK, LAST];
    assert r.buf[3] == FIRST[3] && r.buf[4] == FIRST[4];
    var second, _ := r.ReadLine();
    assert r.chunks == [LAST];
    Revived(r);
    var third, _ := r.ReadLine();
    RevivedLine(third, r.Rest(), capacity);
    lines := [first, second, third];
  }

  /** A line that starts at the front. */
  lemma {:induction false} PlainLine(line: string, max: nat)
    requires 0 < max && NoEol(line) && line != []
    ensures var s := line + ['\r']; Blanks(s) == 0 && LineEnd(s, 0) == |line| && Origin(s, 0, max) == 0
  {
    var s := line + ['\r'];
    assert s[0] == line[0];
    EndOfLine(line);
  }

  lemma {:induction false} ShortLineStays(line: string, max: nat)
    requires 0 < max && NoEol(line) && |line| < max
    ensures Survivors(line + ['\r'], 0, max) == line + ['\r']
  {
    var s := line + ['\r'];
    if line == [] {
      assert s == ['\r'] && Blanks(s) == 1;
    } else {
      PlainLine(line, max);
    }
  }

  /** One buffer of a long line goes at a time. */
  lemma {:induction false} OneBufferGoes(line: string, max: nat)
    requires 0 < max <= |line| && NoEol(line)
    ensures Survivors(line + ['\r'], 0, max) == Survivors(line[max..] + ['\r'], 0, max)
  {
    PlainLine(line, max);
    assert (line + ['\r'])[max..] == line[max..] + ['\r'];
  }

  /** What is left of n bytes when whole buffers are taken away. */
  function LeftOf(n: nat, max: nat): (k: nat)
    requires 0 < max
    ensures k <= n
  {
    if n < max then n else LeftOf(n - max, max)
  }

  lemma {:induction false} LeftOfIsRemainder(n: nat, max: nat)
    requires 0 < max
    ensures LeftOf(n, max) == n % max
  {
    if n >= max {
      LeftOfIsRemainder(n - max, max);
      SameRemainder(n, max);
    }
  }

  /** The last k bytes are left of the line. */
  ghost predicate Leaves(line: string, max: nat, k: nat)
    requires 0 < max && k <= |line|
  {
    Survivors(line + ['\r'], 0, max) == line[|line| - k..] + ['\r']
  }

  lemma {:induction false} LeavesNext(line: string, max: nat, k: nat)
    requires 0 < max && max + k <= |line| && NoEol(line) && Leaves(line[max..], max, k)
    ensures Leaves(line, max, k)
  {
    OneBufferGoes(line, max);
    TailOfRest(line, max, k);
  }

  /** Of a line that fills the buffer some times over, that much is left. */
  lemma {:induction false} OnlyTailSurvives(line: string, max: nat)
    requires 0 < max && NoEol(line)
    ensures Leaves(line, max, LeftOf(|line|, max))
    decreases |line|
  {
    if |line| < max {
      ShortLineStays(line, max);
      assert line[0..] == line;
    } else {
      OnlyTailSurvives(line[max..], max);
      LeavesNext(line, max, LeftOf(|line|, max));
    }
  }

  lemma {:induction false} TailOfRest(line: string, max: nat, k: nat)
    requires max + k <= |line|
    ensures line[max..][|line| - max - k..] == line[|line| - k..]
  {
  }

  lemma {:induction false} SameRemainder(n: nat, max: nat)
    requires 0 < max <= n
    ensures (n - max) % max == n % max
  {
    var z := n / max - 1 - (n - max) / max;
    assert max * z == (n - max) % max - n % max;
    AtLeast(max, z);
  }

  lemma {:induction false} AtLeast(d: nat, z: int)
    ensures z >= 1 ==> d * z >= d
    ensures z <= -1 ==> d * z <= -(d as int)
  {
  }

  lemma {:induction false} EndOfLine(line: string)
    requires NoEol(line)
    ensures LineEnd(line + ['\r'], 0) == |line|
  {
    var s := line + ['\r'];
    forall i | 0 <= i < |line|
      ensures !IsEol(s[i])
    {
      assert s[i] == line[i];
    }
    assert IsEol(s[|line|]);
  }

  /** Without the prompt's first character there is no prompt. */
  lemma {:induction false} NoAngleNoPrompt(w: string, p: nat, chunks: seq<string>, max: nat)
    requires p <= max && 0 < max && Deliverable(chunks) && '>' !in w && '>' !in Concat(chunks)
    ensures !PromptRead(w, p, chunks, max)
    decreases |Concat(chunks)|, if p == max then 1 else 0
  {
    if p == max {
      NoAngleNoPrompt([], 0, chunks, max);
    } else if chunks != [] {
      var n := Portion(chunks, max - p);
      var got, unread := chunks[0][..n], AfterRead(chunks, n);
      ReadSplits(chunks, n);
      var v := Strip(w + got);
      assert forall x :: x in got ==> x in Concat(chunks);
      assert forall x :: x in Concat(unread) ==> x in Concat(chunks);
      assert forall i :: 0 <= i < |v| ==> v[i] in w + got;
      PromptStep(w, p, chunks, max, got, v, unread);
      NoAngleNoPrompt(v, p + n, unread, max);
    }
  }

  /** Why lines must fit: of a line at least as long as the buffer, however it is cut
      into reads, only what is left after whole buffers is returned, if anything. */
  method LongLineIsDitched(capacity: nat, line: string, chunks: seq<string>) returns (result: Option<string>)
    requires 0 < capacity <= |line| && NoEol(line) && '>' !in line
    requires Deliverable(chunks) && Concat(chunks) == line + ['\r']
    ensures var n := |line| % capacity;
            result == if n == 0 then None else Some(line[|line| - n..])
  {
    NoAngleNoPrompt([], 0, chunks, capacity);
    ghost var prompt, rest;
    result, prompt, rest := ReadFirst(capacity, chunks);
    DitchedLine(capacity, line, result, rest);
  }

  /** The first call on a new reader. */
  method ReadFirst(capacity: nat, chunks: seq<string>)
    returns (line: Option<string>, ghost prompt: bool, ghost rest: string)
    requires 0 < capacity && Deliverable(chunks)
    ensures prompt <==> PromptComes([], chunks, capacity)
    ensures !prompt ==> Taken(Survivors(Concat(chunks), 0, capacity), line, rest)
  {
    var r := new LineReader(capacity, chunks);
    assert r.Buffered() == [];
    line, prompt := r.ReadLine();
    rest := r.Rest();
  }

  lemma {:induction false} DitchedLine(capacity: nat, line: string, result: Option<string>, rest: string)
    requires 0 < capacity && NoEol(line) && Taken(Survivors(line + ['\r'], 0, capacity), result, rest)
    ensures var n := |line| % capacity;
            n <= |line| && result == if n == 0 then None else Some(line[|line| - n..])
  {
    OnlyTailSurvives(line, capacity);
    LeftOfIsRemainder(|line|, capacity);
    TailTaken(line[|line| - LeftOf(|line|, capacity)..], result, rest);
  }

  lemma {:induction false} TailTaken(tail: string, line: Option<string>, rest: string)
    requires NoEol(tail) && Taken(tail + ['\r'], line, rest)
    ensures line == if tail == [] then None else Some(tail)
  {
    var s := tail + ['\r'];
    if tail == [] {
      assert s == ['\r'] && Blanks(s) == 1;
    } else {
      assert s[0] == tail[0] && Blanks(s) == 0;
      EndOfLine(tail);
      assert s[0..|tail|] == tail;
    }
  }
}
