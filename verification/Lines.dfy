/**
 The daemon's request reader: bytes arrive in arbitrary pieces and leave as lines.
 */
module Lines {

  // ---- what a stream of bytes means ----

  predicate NoNewline(s: string) {
    forall i :: 0 <= i < |s| ==> s[i] != '\n'
  }

  /** `memchr` for a newline from `start` on; the length if there is none. */
  function NewlineAt(s: string, start: nat): (k: nat)
    requires start <= |s|
    ensures start <= k <= |s| && (k < |s| ==> s[k] == '\n')
    decreases |s| - start
  {
    if start == |s| || s[start] == '\n' then start else NewlineAt(s, start + 1)
  }

  /** It is the first one. */
  lemma {:induction false} NewlineFirst(s: string, start: nat)
    requires start <= |s|
    ensures NoNewline(s[start..NewlineAt(s, start)])
    decreases |s| - start
  {
    if start < |s| && s[start] != '\n' {
      NewlineFirst(s, start + 1);
      var k := NewlineAt(s, start);
      assert s[start..k] == [s[start]] + s[start + 1..k];
    }
  }

  /** A stream as newline-terminated lines and what follows the last newline. */
  datatype Parts = Tail(tail: string) | Line(line: string, rest: Parts)

  function SplitFrom(s: string, start: nat): Parts
    requires start <= |s|
    decreases |s| - start
  {
    var k := NewlineAt(s, start);
    if k == |s| then Tail(s[start..]) else Line(s[start..k], SplitFrom(s, k + 1))
  }

  function Split(s: string): Parts {
    SplitFrom(s, 0)
  }

  function LinesOf(p: Parts): seq<string> {
    match p
    case Tail(_) => []
    case Line(line, rest) => [line] + LinesOf(rest)
  }

  function TailOf(p: Parts): string {
    match p
    case Tail(t) => t
    case Line(_, rest) => TailOf(rest)
  }

  /** The stream that has these parts. */
  function Joined(p: Parts): string {
    match p
    case Tail(t) => t
    case Line(line, rest) => line + ("\n" + Joined(rest))
  }

  predicate Proper(p: Parts) {
    match p
    case Tail(t) => NoNewline(t)
    case Line(line, rest) => NoNewline(line) && Proper(rest)
  }

  lemma {:induction false} NewlineShift(a: string, b: string, start: nat)
    requires start <= |b|
    ensures NewlineAt(a + b, |a| + start) == |a| + NewlineAt(b, start)
    decreases |b| - start
  {
    if start < |b| && b[start] != '\n' { NewlineShift(a, b, start + 1); }
  }

  lemma SliceShift(a: string, b: string, i: nat, j: nat)
    requires i <= j <= |b|
    ensures (a + b)[|a| + i..|a| + j] == b[i..j]
    ensures j == |b| ==> (a + b)[|a| + i..] == b[i..]
  {
  }

  /** What comes before `start` does not matter. */
  lemma {:induction false} SplitShift(a: string, b: string, s: string, start: nat)
    requires start <= |b| && s == a + b
    ensures SplitFrom(s, |a| + start) == SplitFrom(b, start)
    decreases |b| - start
  {
    var k := NewlineAt(b, start);
    NewlineShift(a, b, start);
    SliceShift(a, b, start, k);
    if k < |b| { SplitShift(a, b, s, k + 1); }
  }

  lemma {:induction false} NewlineAfter(line: string, rest: string, i: nat)
    requires NoNewline(line) && i <= |line|
    ensures NewlineAt(line + ("\n" + rest), i) == |line|
    decreases |line| - i
  {
    if i < |line| { NewlineAfter(line, rest, i + 1); }
  }

  lemma SplitLine(line: string, rest: string)
    requires NoNewline(line)
    ensures Split(line + ("\n" + rest)) == Line(line, Split(rest))
  {
    var s, first := line + ("\n" + rest), line + "\n";
    assert s == first + rest && s[0..|line|] == line;
    NewlineAfter(line, rest, 0);
    SplitShift(first, rest, s, 0);
  }

  lemma {:induction false} NoLines(s: string, i: nat)
    requires NoNewline(s) && i <= |s|
    ensures NewlineAt(s, i) == |s| && Split(s) == Tail(s)
    decreases |s| - i
  {
    if i < |s| { NoLines(s, i + 1); }
    assert s[0..] == s;
  }

  /** Splitting undoes joining: lines and tail are determined by the stream. */
  lemma {:induction false} SplitJoined(p: Parts)
    requires Proper(p)
    ensures Split(Joined(p)) == p
  {
    match p
    case Tail(t) => NoLines(t, 0);
    case Line(line, rest) =>
      SplitJoined(rest);
      SplitLine(line, Joined(rest));
  }

  lemma {:induction false} SplitProper(s: string, start: nat)
    requires start <= |s|
    ensures Proper(SplitFrom(s, start))
    decreases |s| - start
  {
    var k := NewlineAt(s, start);
    NewlineFirst(s, start);
    if k == |s| { assert s[start..|s|] == s[start..]; } else { SplitProper(s, k + 1); }
  }

  lemma CutAtNewline(s: string, start: nat, k: nat)
    requires start <= k < |s| && s[k] == '\n'
    ensures s[start..k] + ("\n" + s[k + 1..]) == s[start..]
  {
  }

  lemma {:induction false} JoinedSplit(s: string, start: nat)
    requires start <= |s|
    ensures Joined(SplitFrom(s, start)) == s[start..]
    decreases |s| - start
  {
    var k := NewlineAt(s, start);
    if k < |s| {
      LineTaken(s, start, k);
      JoinedSplit(s, k + 1);
      JoinedLine(s[start..k], SplitFrom(s, k + 1), s[k + 1..]);
      CutAtNewline(s, start, k);
    }
  }

  lemma JoinedLine(line: string, rest: Parts, tail: string)
    requires Joined(rest) == tail
    ensures Joined(Line(line, rest)) == line + ("\n" + tail)
  {
  }

  // ---- reading on ----

  /** The parts of a stream of which `p` are the parts so far. */
  function Continued(p: Parts, more: string): Parts {
    match p
    case Tail(t) => Split(t + more)
    case Line(line, rest) => Line(line, Continued(rest, more))
  }

  /** Reading on after a first piece needs only the piece's tail. */
  lemma {:induction false} JoinedContinued(p: Parts, more: string)
    requires Proper(p)
    ensures Split(Joined(p) + more) == Continued(p, more)
  {
    match p
    case Tail(_) =>
    case Line(line, rest) =>
      JoinedContinued(rest, more);
      SplitLine(line, Joined(rest) + more);
      assert line + ("\n" + Joined(rest)) + more == line + ("\n" + (Joined(rest) + more));
  }

  lemma SplitConcat(a: string, b: string)
    ensures Split(a + b) == Continued(Split(a), b)
  {
    SplitProper(a, 0);
    JoinedSplit(a, 0);
    assert a[0..] == a;
    JoinedContinued(Split(a), b);
  }

  lemma {:induction false} ContinuedParts(p: Parts, more: string)
    ensures LinesOf(Continued(p, more)) == LinesOf(p) + LinesOf(Split(TailOf(p) + more))
    ensures TailOf(Continued(p, more)) == TailOf(Split(TailOf(p) + more))
  {
    match p
    case Tail(t) => assert [] + LinesOf(Split(t + more)) == LinesOf(Split(t + more));
    case Line(line, rest) =>
      ContinuedParts(rest, more);
      Assoc([line], LinesOf(rest), LinesOf(Split(TailOf(rest) + more)));
  }

  lemma Assoc(a: seq<string>, b: seq<string>, c: seq<string>)
    ensures a + (b + c) == a + b + c
  {
  }

  // ---- the reader ----

  class Connection {
    var buffer: string
    var handled: seq<string>  // lines handed to the request handler

    constructor ()
      ensures buffer == "" && handled == []
    {
      buffer, handled := "", [];
    }

    /** `on_client_read` for a read that delivered bytes. */
    method OnRead(chunk: string)
      modifies this
      ensures State(buffer, handled) == Fed(old(State(buffer, handled)), chunk)
    {
      buffer := buffer + chunk;
      var lines, start := TakeLines(buffer);
      handled := handled + lines;
      buffer := buffer[start..];
    }
  }

  /** The loop over the buffer: the lines it hands on and where the unfinished one starts. */
  method TakeLines(data: string) returns (lines: seq<string>, start: nat)
    ensures start <= |data| && lines == LinesOf(Split(data)) && data[start..] == TailOf(Split(data))
  {
    lines, start := [], 0;
    var end := NewlineAt(data, start);
    ghost var p := Split(data);
    ghost var all, tail := LinesOf(p), TailOf(p);
    assert [] + all == all;
    while end < |data|
      invariant start <= |data| && end == NewlineAt(data, start) && p == SplitFrom(data, start)
      invariant all == lines + LinesOf(p) && tail == TailOf(p)
      decreases |data| - start
    {
      LineTaken(data, start, end);
      Assoc(lines, [p.line], LinesOf(p.rest));
      lines := lines + [data[start..end]];
      start := end + 1;
      end := NewlineAt(data, start);
      p := p.rest;
    }
    assert p == Tail(data[start..]) && lines + [] == lines;
  }

  lemma LineTaken(data: string, start: nat, end: nat)
    requires start <= end < |data| && end == NewlineAt(data, start)
    ensures SplitFrom(data, start) == Line(data[start..end], SplitFrom(data, end + 1))
  {
  }

  // ---- whole connections ----

  datatype State = State(buffer: string, handled: seq<string>)

  /** What one read is meant to do. */
  function Fed(st: State, chunk: string): State {
    var p := Split(st.buffer + chunk);
    State(TailOf(p), st.handled + LinesOf(p))
  }

  function FedAll(st: State, chunks: seq<string>): State
    decreases |chunks|
  {
    if chunks == [] then st else FedAll(Fed(st, chunks[0]), chunks[1..])
  }

  function Concat(chunks: seq<string>): string {
    if chunks == [] then "" else chunks[0] + Concat(chunks[1..])
  }

  lemma {:induction false} TailHasNoNewline(p: Parts)
    requires Proper(p)
    ensures NoNewline(TailOf(p))
  {
    if p.Line? { TailHasNoNewline(p.rest); }
  }

  lemma {:induction false} FedAllSplits(st: State, chunks: seq<string>)
    requires NoNewline(st.buffer)
    ensures FedAll(st, chunks) == Fed(st, Concat(chunks))
    decreases |chunks|
  {
    if chunks == [] {
      assert st.buffer + "" == st.buffer;
      NoLines(st.buffer, 0);
      assert st.handled + [] == st.handled;
    } else {
      SplitProper(st.buffer + chunks[0], 0);
      TailHasNoNewline(Split(st.buffer + chunks[0]));
      FedAllSplits(Fed(st, chunks[0]), chunks[1..]);
      FedTwice(st, chunks[0], Concat(chunks[1..]));
    }
  }

  lemma FedTwice(st: State, c: string, d: string)
    ensures Fed(Fed(st, c), d) == Fed(st, c + d)
  {
    var p := Split(st.buffer + c);
    SplitConcat(st.buffer + c, d);
    ContinuedParts(p, d);
    assert st.buffer + c + d == st.buffer + (c + d);
    Assoc(st.handled, LinesOf(p), LinesOf(Split(TailOf(p) + d)));
  }

  /** However a stream is cut into reads, the same lines are handled and the same tail is kept. */
  lemma AnyFragmentation(chunks: seq<string>)
    ensures var p := Split(Concat(chunks));
            FedAll(State("", []), chunks) == State(TailOf(p), LinesOf(p))
  {
    FedAllSplits(State("", []), chunks);
    assert "" + Concat(chunks) == Concat(chunks);
    assert [] + LinesOf(Split(Concat(chunks))) == LinesOf(Split(Concat(chunks)));
  }
}
