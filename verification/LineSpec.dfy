/** What the AT channel's line reader should return: the lines of a stream, which
    of its bytes a buffer of limited size loses, and when a prompt is seen. */
module LineSpec {
  import opened Common

  const NUL: char := '\0'

  predicate IsEol(ch: char)
  {
    ch == '\r' || ch == '\n'
  }

  predicate NulFree(s: string)
  {
    NUL !in s
  }

  // ----- reference: what the lines of a stream are ---------------------------

  /** The non-empty CR- or LF-terminated segments of `s`, in order, when `open`
      is what the current segment already holds. */
  function Segments(s: string, open: string): seq<string>
  {
    if s == [] then []
    else if IsEol(s[0]) then (if open == [] then [] else [open]) + Segments(s[1..], [])
    else Segments(s[1..], open + [s[0]])
  }

  function Lines(s: string): seq<string>
  {
    Segments(s, [])
  }

  // ----- one line at a time --------------------------------------------------

  /** Length of the leading run of line ends. */
  function Blanks(s: string): (e: nat)
    ensures e <= |s|
    ensures forall i :: 0 <= i < e ==> IsEol(s[i])
    ensures e < |s| ==> !IsEol(s[e])
  {
    if s == [] || !IsEol(s[0]) then 0 else 1 + Blanks(s[1..])
  }

  /** First line end at or after `i`, or the end of `s`. */
  function LineEnd(s: string, i: nat): (k: nat)
    requires i <= |s|
    ensures i <= k <= |s|
    ensures forall j :: i <= j < k ==> !IsEol(s[j])
    ensures k < |s| ==> IsEol(s[k])
    decreases |s| - i
  {
    if i == |s| || IsEol(s[i]) then i else LineEnd(s, i + 1)
  }

  lemma {:induction false} SegmentGrows(s: string, open: string, k: nat)
    requires k <= |s| && forall j :: 0 <= j < k ==> !IsEol(s[j])
    ensures Segments(s, open) == Segments(s[k..], open + s[..k])
    decreases k
  {
    if k == 0 {
      assert s[0..] == s && open + s[..0] == open;
    } else {
      SegmentGrows(s[1..], open + [s[0]], k - 1);
      assert s[1..][k - 1..] == s[k..];
      assert open + [s[0]] + s[1..][..k - 1] == open + s[..k];
    }
  }

  lemma {:induction false} BlanksDropped(s: string, k: nat)
    requires k <= |s| && forall j :: 0 <= j < k ==> IsEol(s[j])
    ensures Lines(s) == Lines(s[k..])
    decreases k
  {
    if k == 0 {
      assert s[0..] == s;
    } else {
      BlanksDropped(s[1..], k - 1);
      assert s[1..][k - 1..] == s[k..];
    }
  }

  /** A terminated segment comes first. */
  lemma TerminatedFirst(s: string, k: nat)
    requires 0 < k < |s| && IsEol(s[k]) && forall j :: 0 <= j < k ==> !IsEol(s[j])
    ensures Lines(s) == [s[..k]] + Lines(s[k + 1..])
  {
    SegmentGrows(s, [], k);
    assert [] + s[..k] == s[..k];
    assert s[k..][1..] == s[k + 1..];
    assert s[k..][0] == s[k];
  }

  lemma UnterminatedIsNone(s: string)
    requires forall j :: 0 <= j < |s| ==> !IsEol(s[j])
    ensures Lines(s) == []
  {
    SegmentGrows(s, [], |s|);
    assert s[|s|..] == [];
  }

  /** Cutting at the first line end after the leading blanks yields the first line. */
  lemma FirstLine(s: string, e: nat, k: nat)
    requires e == Blanks(s) && k == LineEnd(s, e)
    ensures k == |s| ==> Lines(s) == []
    ensures k < |s| ==> Lines(s) == [s[e..k]] + Lines(s[k + 1..])
  {
    BlanksDropped(s, e);
    var t := s[e..];
    if k == |s| {
      UnterminatedIsNone(t);
    } else {
      TerminatedFirst(t, k - e);
      assert t[..k - e] == s[e..k];
      assert t[k - e + 1..] == s[k + 1..];
    }
  }

  /** Every blank run plus the line after it is shorter than `max`. */
  predicate Fits(s: string, max: nat)
    decreases |s|
  {
    var e := Blanks(s);
    var k := LineEnd(s, e);
    (e < k ==> k < max) && (k < |s| ==> Fits(s[k + 1..], max))
  }

  /** No line, not even an unfinished one, starts like the SMS prompt. */
  predicate NoPrompt(s: string)
    decreases |s|
  {
    var e := Blanks(s);
    var k := LineEnd(s, e);
    !(e + 1 < |s| && s[e] == '>' && s[e + 1] == ' ') && (k < |s| ==> NoPrompt(s[k + 1..]))
  }

  function Concat(chunks: seq<string>): string
  {
    if chunks == [] then [] else chunks[0] + Concat(chunks[1..])
  }

  /** `line` is the first line of `s` and `rest` what follows it, or `s` has none. */
  ghost predicate Taken(s: string, line: Option<string>, rest: string)
  {
    var e := Blanks(s);
    var k := LineEnd(s, e);
    if line.None? then k == |s|
    else k < |s| && line.value == s[e..k] && rest == s[k + 1..]
  }

  /** Cutting at the first line end behind the dropped blanks takes the first line. */
  lemma {:induction false} CutTakes(s: string, gone: nat, w: string, n: nat)
    requires gone <= |s| && s[gone..] == w && forall i :: 0 <= i < gone ==> IsEol(s[i])
    requires n < |w| && !IsEol(w[0]) && IsEol(w[n]) && forall i :: 0 <= i < n ==> !IsEol(w[i])
    ensures Taken(s, Some(w[..n]), w[n + 1..])
  {
    assert s[gone] == w[0] && s[gone + n] == w[n];
    forall i | gone <= i < gone + n
      ensures !IsEol(s[i])
    {
      assert s[i] == w[i - gone];
    }
    assert LineEnd(s, gone) == gone + n;
    assert s[gone..gone + n] == w[..n] && s[gone + n + 1..] == w[n + 1..];
  }

  /** The chunks after `count` bytes of the first one are read. */
  function AfterRead(chunks: seq<string>, count: nat): (rest: seq<string>)
    requires chunks != [] && count <= |chunks[0]|
  {
    if count == |chunks[0]| then chunks[1..] else [chunks[0][count..]] + chunks[1..]
  }

  ghost predicate Deliverable(chunks: seq<string>)
  {
    forall i :: 0 <= i < |chunks| ==> chunks[i] != [] && NulFree(chunks[i])
  }

  lemma {:induction false} ReadSplits(chunks: seq<string>, count: nat)
    requires chunks != [] && count <= |chunks[0]| && Deliverable(chunks)
    ensures Deliverable(AfterRead(chunks, count))
    ensures Concat(chunks) == chunks[0][..count] + Concat(AfterRead(chunks, count))
  {
    var chunk, rest := chunks[0], AfterRead(chunks, count);
    assert chunk == chunk[..count] + chunk[count..];
    if count == |chunk| {
      assert chunk[..count] == chunk;
    } else {
      assert rest[1..] == chunks[1..];
      assert chunk[..count] + (chunk[count..] + Concat(chunks[1..])) == chunk + Concat(chunks[1..]);
    }
  }

  /** The first `n` bytes read; as much of the first chunk as there is room for. */
  function Portion(chunks: seq<string>, room: nat): (n: nat)
    requires chunks != []
    ensures n <= |chunks[0]| && n <= room
  {
    if |chunks[0]| <= room then |chunks[0]| else room
  }

  // ----- lines that do not fit -----------------------------------------------

  function Min(a: nat, b: nat): nat
  {
    if a <= b then a else b
  }

  /** How many of `e` leading blanks are dropped, whole buffers at a time, when `d`
      already are. */
  function Skipped(e: nat, d: nat, max: nat): (r: nat)
    requires d <= e && 0 < max
    ensures d <= r <= e < r + max
    decreases e - d
  {
    if e - d >= max then Skipped(e, d + max, max) else d
  }

  /** Where the buffer starts that takes the first line of `s`, if the first `b`
      bytes of `s` were read before. */
  function Origin(s: string, b: nat, max: nat): (r: nat)
    requires 0 < max
    ensures r <= Blanks(s) < r + max
  {
    Skipped(Blanks(s), Min(Blanks(s), b), max)
  }

  /** The first line, or what there is of it, fills the buffer. */
  predicate TooLong(s: string, b: nat, max: nat)
    requires 0 < max
  {
    LineEnd(s, Blanks(s)) >= Origin(s, b, max) + max
  }

  /** What is left of `s` when every full buffer without a line end is ditched. */
  function Survivors(s: string, b: nat, max: nat): string
    requires 0 < max
    decreases |s|
  {
    if TooLong(s, b, max) then Survivors(s[Origin(s, b, max) + max..], 0, max) else s
  }

  /** Exactly the lines that are too long cost bytes. */
  lemma {:induction false} SurvivesIff(s: string, b: nat, max: nat)
    requires 0 < max
    ensures Survivors(s, b, max) == s <==> !TooLong(s, b, max)
  {
    if TooLong(s, b, max) {
      SurvivorsShorter(s[Origin(s, b, max) + max..], 0, max);
    }
  }

  lemma {:induction false} SurvivorsShorter(s: string, b: nat, max: nat)
    requires 0 < max
    ensures |Survivors(s, b, max)| <= |s|
    decreases |s|
  {
    if TooLong(s, b, max) {
      SurvivorsShorter(s[Origin(s, b, max) + max..], 0, max);
    }
  }

  lemma {:induction false} FittingSurvives(s: string, b: nat, max: nat)
    requires 0 < max && Fits(s, max)
    ensures !TooLong(s, b, max)
  {
  }

  // ----- the prompt ----------------------------------------------------------

  predicate IsPrompt(w: string)
  {
    |w| == 2 && w[0] == '>' && w[1] == ' '
  }

  function Strip(w: string): string
  {
    w[Blanks(w)..]
  }

  predicate NoEol(w: string)
  {
    forall i :: 0 <= i < |w| ==> !IsEol(w[i])
  }

  lemma {:induction false} StripAt(w: string, n: nat)
    requires n <= |w| && (forall i :: 0 <= i < n ==> IsEol(w[i])) && (n < |w| ==> !IsEol(w[n]))
    ensures Blanks(w) == n && Strip(w) == w[n..]
  {
  }

  /** The prompt case is taken while reading on, when `w` is the unfinished line and
      `p` bytes of the buffer are used: one of the reads leaves exactly the prompt,
      leading blanks aside, and none before it a line end. */
  ghost predicate PromptRead(w: string, p: nat, chunks: seq<string>, max: nat)
    requires p <= max && 0 < max && Deliverable(chunks)
    decreases |Concat(chunks)|, if p == max then 1 else 0
  {
    if p == max then PromptRead([], 0, chunks, max)
    else if chunks == [] then false
    else
      var n := Portion(chunks, max - p);
      var v := Strip(w + chunks[0][..n]);
      ReadSplits(chunks, n);
      IsPrompt(v) || (NoEol(v) && PromptRead(v, p + n, AfterRead(chunks, n), max))
  }

  /** The prompt case is taken, when `w` is buffered and `chunks` are still to come. */
  ghost predicate PromptComes(w: string, chunks: seq<string>, max: nat)
    requires |w| <= max && 0 < max && Deliverable(chunks)
  {
    if w == [] then PromptRead([], 0, chunks, max)
    else IsPrompt(Strip(w)) || (NoEol(Strip(w)) && PromptRead(Strip(w), |Strip(w)|, chunks, max))
  }

  /** What ends a line: a carriage return or a line feed, and nothing else. */
  lemma {:induction false} LineEnds(a: string, c: char, b: string)
    requires a != [] && NoEol(a)
    ensures c == '\r' || c == '\n' ==> Lines(a + [c] + b) == [a] + Lines(b)
    ensures c != '\r' && c != '\n' ==> NoEol(a + [c]) && Lines(a + [c]) == []
  {
    var s := a + [c] + b;
    if c == '\r' || c == '\n' {
      assert s[..|a|] == a && s[|a| + 1..] == b;
      TerminatedFirst(s, |a|);
    } else {
      UnterminatedIsNone(a + [c]);
    }
  }
}
