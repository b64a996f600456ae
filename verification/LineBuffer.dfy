/** Lines of a stream read in chunks, and the window of the last of them: src/sandbox/builtins.rs. */
module LineBuffer {
  import opened Base

  type Bytes = seq<byte>

  const MaxLine := 1024 * 1024
  const ChunkSize := 8192
  const Newline: byte := 10

  /** The length of the first line, its newline included; the whole of it if there is none. */
  function LineLength(s: Bytes): (n: nat)
    ensures n <= |s| && (s != [] ==> n > 0)
  {
    if s == [] then 0 else if s[0] == Newline then 1 else LineLength(s[1..]) + 1
  }

  lemma {:induction false} LineFound(s: Bytes, k: nat)
    requires k < |s| && s[k] == Newline && forall i :: 0 <= i < k ==> s[i] != Newline
    ensures LineLength(s) == k + 1
    decreases k
  {
    if k > 0 { LineFound(s[1..], k - 1); }
  }

  lemma {:induction false} LineOpen(s: Bytes, k: nat)
    requires k <= |s| && forall i :: 0 <= i < k ==> s[i] != Newline
    ensures LineLength(s) >= k && (k == |s| ==> LineLength(s) == |s|)
    decreases k
  {
    if k > 0 { LineOpen(s[1..], k - 1); }
  }

  function Lines(s: Bytes): seq<Bytes>
    decreases |s|
  {
    if s == [] then [] else [s[..LineLength(s)]] + Lines(s[LineLength(s)..])
  }

  function Concat(chunks: seq<Bytes>): Bytes { if chunks == [] then [] else chunks[0] + Concat(chunks[1..]) }

  /** The lines are all of the stream, in order. */
  lemma {:induction false} LinesConcat(s: Bytes)
    ensures Concat(Lines(s)) == s
    decreases |s|
  {
    if s != [] {
      LinesConcat(s[LineLength(s)..]);
      assert s == s[..LineLength(s)] + s[LineLength(s)..];
      assert ([s[..LineLength(s)]] + Lines(s[LineLength(s)..]))[1..] == Lines(s[LineLength(s)..]);
    }
  }

  /** Each line ends at its only newline, or is the last and has none. */
  predicate IsLine(line: Bytes) { line != [] && line[|line| - 1] == Newline && forall i :: 0 <= i < |line| - 1 ==> line[i] != Newline }
  predicate IsOpen(line: Bytes) { line != [] && forall i :: 0 <= i < |line| ==> line[i] != Newline }

  lemma {:induction false} FirstLine(s: Bytes)
    requires s != []
    ensures IsLine(s[..LineLength(s)]) || (LineLength(s) == |s| && IsOpen(s))
  {
    if s[0] != Newline && |s| > 1 {
      FirstLine(s[1..]);
      var n := LineLength(s[1..]);
      assert s[..n + 1] == [s[0]] + s[1..][..n];
    }
  }

  lemma {:induction false} LinesShape(s: Bytes, k: nat)
    requires k < |Lines(s)|
    ensures IsLine(Lines(s)[k]) || (k == |Lines(s)| - 1 && IsOpen(Lines(s)[k]))
    decreases |s|
  {
    FirstLine(s);
    var rest := s[LineLength(s)..];
    if k > 0 {
      LinesShape(rest, k - 1);
    } else if LineLength(s) == |s| {
      assert rest == [] && Lines(rest) == [];
      assert s[..|s|] == s;
    }
  }

  /** A source that hands out its bytes in pieces of its own choosing, then nothing. */
  class Reader {
    var chunks: seq<Bytes>

    ghost predicate Valid()
      reads this
    {
      forall i :: 0 <= i < |chunks| ==> 0 < |chunks[i]| <= ChunkSize
    }

    constructor (chunks: seq<Bytes>)
      requires forall i :: 0 <= i < |chunks| ==> 0 < |chunks[i]| <= ChunkSize
      ensures Valid() && this.chunks == chunks
    {
      this.chunks := chunks;
    }

    method Read() returns (data: Bytes)
      requires Valid()
      modifies this
      ensures Valid() && data + Concat(chunks) == Concat(old(chunks))
      ensures data == [] <==> old(chunks) == []
      ensures |chunks| == if old(chunks) == [] then 0 else |old(chunks)| - 1
    {
      if chunks == [] { return []; }
      data, chunks := chunks[0], chunks[1..];
    }
  }

  /** A line; the end of the input; or an error, a line over the limit. */
  datatype ReadResult = Line(line: Bytes) | End | TooLong

  /** The first newline at or after `from`, or the end. */
  method Position(bytes: Bytes, from: nat) returns (p: nat)
    requires from <= |bytes|
    ensures from <= p <= |bytes| && (p < |bytes| ==> bytes[p] == Newline)
    ensures forall i :: from <= i < p ==> bytes[i] != Newline
  {
    p := from;
    while p < |bytes| && bytes[p] != Newline
      invariant from <= p <= |bytes| && forall i :: from <= i < p ==> bytes[i] != Newline
    {
      p := p + 1;
    }
  }

  class Buffer {
    var bytes: Bytes
    var start: nat
    var scanned: nat
    var eof: bool

    ghost predicate Valid(reader: Reader)
      reads this, reader
    {
      && reader.Valid() && start <= scanned <= |bytes|
      && (forall i :: start <= i < scanned ==> bytes[i] != Newline)
      && (eof ==> reader.chunks == [])
    }

    constructor ()
      ensures bytes == [] && start == 0 && scanned == 0 && !eof
    {
      bytes, start, scanned, eof := [], 0, 0, false;
    }

    /** What is still to be read, whatever part of it is in the buffer. */
    ghost function Ahead(reader: Reader): Bytes
      requires start <= |bytes|
      reads this, reader
    {
      bytes[start..] + Concat(reader.chunks)
    }

    /** Another chunk, behind what has not been handed out. */
    method Fill(reader: Reader)
      requires Valid(reader) && !eof && scanned == |bytes|
      modifies this, reader
      ensures Valid(reader) && start == 0 && Ahead(reader) == old(Ahead(reader))
      ensures eof <==> old(reader.chunks) == []
      ensures |reader.chunks| == if eof then 0 else old(|reader.chunks|) - 1
    {
      if start > 0 { bytes, scanned, start := bytes[start..], scanned - start, 0; }
      assert bytes == old(bytes[start..]);
      var data := reader.Read();
      eof := data == [];
      assert bytes + data + Concat(reader.chunks) == bytes + (data + Concat(reader.chunks));
      bytes := bytes + data;
      assert bytes[0..] == bytes;
    }

    /** The next line of the stream, however it is cut into chunks; an error exactly if that line
        is over the limit, and then nothing is lost. */
    method ReadLine(reader: Reader) returns (r: ReadResult)
      requires Valid(reader)
      modifies this, reader
      ensures Valid(reader)
      ensures r == Next(old(Ahead(reader)))
      ensures Ahead(reader) == if r.Line? then old(Ahead(reader))[|r.line|..] else old(Ahead(reader))
    {
      ghost var ahead := Ahead(reader);
      while true
        invariant Valid(reader) && Ahead(reader) == ahead
        decreases |reader.chunks|, !eof
      {
        var found := TakeBuffered(reader);
        if found.Some? { return found.value; }
        Fill(reader);
      }
    }

    /** The line if the buffer settles it; otherwise all of the buffer has been looked at. */
    method TakeBuffered(reader: Reader) returns (r: Option<ReadResult>)
      requires Valid(reader)
      modifies this`start, this`scanned
      ensures Valid(reader)
      ensures r.None? ==> !eof && scanned == |bytes| && Ahead(reader) == old(Ahead(reader))
      ensures r.Some? ==> r.value == Next(old(Ahead(reader)))
      ensures r.Some? ==> Ahead(reader) == if r.value.Line? then old(Ahead(reader))[|r.value.line|..] else old(Ahead(reader))
    {
      var p := Position(bytes, scanned);
      BufferedLine(bytes, start, p, Concat(reader.chunks));
      if p < |bytes| {
        if p + 1 - start > MaxLine { return Some(TooLong); }
        r := Some(Line(bytes[start..p + 1]));
        start, scanned := p + 1, p + 1;
        return;
      }
      scanned := |bytes|;
      if |bytes| - start > MaxLine { return Some(TooLong); }
      if !eof { return None; }
      assert bytes[start..] + [] == bytes[start..];
      if start == |bytes| { return Some(End); }
      r := Some(Line(bytes[start..]));
      assert bytes[start..][..|bytes| - start] == bytes[start..];
      start := |bytes|;
    }
  }

  /** What the bytes before `p`, none of them a newline, and the one at `p` say of the first line. */
  lemma BufferedLine(bytes: Bytes, start: nat, p: nat, rest: Bytes)
    requires start <= p <= |bytes| && (p < |bytes| ==> bytes[p] == Newline) && forall i :: start <= i < p ==> bytes[i] != Newline
    ensures var ahead := bytes[start..] + rest;
      && (p < |bytes| ==> LineLength(ahead) == p + 1 - start && ahead[..p + 1 - start] == bytes[start..p + 1]
                          && ahead[p + 1 - start..] == bytes[p + 1..] + rest)
      && (p == |bytes| ==> LineLength(ahead) >= p - start)
      && (p == |bytes| && rest == [] ==> LineLength(ahead) == p - start)
  {
    var ahead := bytes[start..] + rest;
    assert forall i :: 0 <= i < p - start ==> ahead[i] == bytes[start + i];
    if p < |bytes| {
      assert ahead[p - start] == bytes[p];
      LineFound(ahead, p - start);
    } else {
      LineOpen(ahead, p - start);
    }
  }

  /** The first line of what is ahead. */
  function Next(ahead: Bytes): ReadResult {
    if ahead == [] then End
    else if LineLength(ahead) > MaxLine then TooLong
    else Line(ahead[..LineLength(ahead)])
  }

  // -------------------------------------------------------------- the tail window

  function Max(a: int, b: int): int { if a < b then b else a }

  /** The last `limit` of the first `k` lines. */
  function Window(lines: seq<Bytes>, k: nat, limit: nat): Bytes
    requires k <= |lines|
  {
    Concat(lines[Max(0, k - limit)..k])
  }

  lemma {:induction false} ConcatLast(chunks: seq<Bytes>, c: Bytes)
    ensures Concat(chunks + [c]) == Concat(chunks) + c
  {
    if chunks == [] {
      assert chunks + [c] == [c] && [c][1..] == [];
    } else {
      assert (chunks + [c])[1..] == chunks[1..] + [c];
      ConcatLast(chunks[1..], c);
    }
  }

  datatype TailResult = Output(bytes: Bytes) | LineError | WindowError

  /** Drops the first line of the window. */
  method DropLine(window: Bytes, ghost first: Bytes, ghost others: Bytes) returns (w: Bytes)
    requires IsLine(first) && window == first + others
    ensures w == others
  {
    w := window;
    ghost var n := 0;
    while w != []
      invariant n < |first| && w == window[n..]
      decreases |w|
    {
      var byte := w[0];
      assert byte == window[n] == first[n];
      w := w[1..];
      if byte == Newline {
        assert n == |first| - 1;
        return;
      }
      n := n + 1;
    }
  }

  /** Adds a line to the window, the oldest making room for it. */
  method Retain(window: Bytes, retained: nat, line: Bytes, limit: nat, windowBytes: nat, ghost lines: seq<Bytes>, ghost n: nat)
    returns (ok: bool, window': Bytes, retained': nat)
    requires limit > 0 && n < |lines| && line == lines[n] && forall j :: 0 <= j < n ==> IsLine(lines[j])
    requires retained == n - Max(0, n - limit) && window == Window(lines, n, limit)
    ensures ok == (|Window(lines, n + 1, limit)| <= windowBytes)
    ensures ok ==> retained' == n + 1 - Max(0, n + 1 - limit) && window' == Window(lines, n + 1, limit)
  {
    hide IsLine, Concat;
    window', retained' := window, retained;
    WindowNext(lines, n, limit);
    if retained == limit {
      WindowFront(lines, n, limit);
      window' := DropLine(window, lines[n - limit], Concat(lines[n - limit + 1..n]));
      retained' := retained - 1;
    }
    ok := |window'| + |line| <= windowBytes;
    if ok { window', retained' := window' + line, retained' + 1; }
  }

  ghost predicate Kept(lines: seq<Bytes>, j: nat, limit: nat, windowBytes: nat)
    requires j < |lines|
  {
    |lines[j]| <= MaxLine && (limit > 0 ==> |Window(lines, j + 1, limit)| <= windowBytes)
  }

  /** `tail`: the last `limit` lines, unless some line is over the limit for lines or some window
      over the limit for windows; `n` lines came before the first that is. */
  method Tail(reader: Reader, limit: nat, windowBytes: nat) returns (r: TailResult, ghost n: nat)
    requires reader.Valid()
    modifies reader
    ensures var lines := Lines(Concat(old(reader.chunks)));
      && n <= |lines| && (forall j :: 0 <= j < n ==> Kept(lines, j, limit, windowBytes))
      && (r.Output? ==> n == |lines| && r.bytes == if limit == 0 then [] else Window(lines, n, limit))
      && (r.LineError? ==> n < |lines| && |lines[n]| > MaxLine)
      && (r.WindowError? ==> n < |lines| && |lines[n]| <= MaxLine && limit > 0 && |Window(lines, n + 1, limit)| > windowBytes)
  {
    hide Lines, Concat, Window, IsLine, IsOpen, LineLength, Next;
    ghost var stream := Concat(reader.chunks);
    ghost var lines := Lines(stream);
    NoWindow(lines, limit);
    var pending := new Buffer();
    assert [][0..] + stream == stream;
    var window: Bytes, retained := [], 0;
    n := 0;
    assert lines[0..] == lines;
    while true
      invariant fresh(pending) && pending.Valid(reader) && n <= |lines| && Lines(pending.Ahead(reader)) == lines[n..]
      invariant forall j :: 0 <= j < n ==> Kept(lines, j, limit, windowBytes)
      invariant limit == 0 ==> window == []
      invariant limit > 0 ==> retained == n - Max(0, n - limit) && window == Window(lines, n, limit)
      decreases |lines| - n
    {
      ghost var ahead := pending.Ahead(reader);
      var next := pending.ReadLine(reader);
      NextLine(ahead, lines, n);
      if next.TooLong? { return LineError, n; }
      if next.End? { break; }
      if limit > 0 {
        LinesShapeAt(stream, n);
        var ok;
        ok, window, retained := Retain(window, retained, next.line, limit, windowBytes, lines, n);
        if !ok { return WindowError, n; }
      }
      n := n + 1;
    }
    r := Output(window);
  }

  lemma NoWindow(lines: seq<Bytes>, limit: nat)
    ensures Window(lines, 0, limit) == []
  {
  }

  lemma NextLine(ahead: Bytes, lines: seq<Bytes>, n: nat)
    requires n <= |lines| && Lines(ahead) == lines[n..]
    ensures Next(ahead).End? <==> n == |lines|
    ensures Next(ahead).Line? ==> Next(ahead).line == lines[n] && |lines[n]| == LineLength(ahead)
    ensures n < |lines| ==> lines[n] == ahead[..LineLength(ahead)] && Lines(ahead[LineLength(ahead)..]) == lines[n + 1..]
    ensures n < |lines| ==> (Next(ahead).TooLong? <==> |lines[n]| > MaxLine)
  {
    if ahead != [] {
      assert lines[n] == lines[n..][0];
      assert lines[n..][1..] == lines[n + 1..];
    }
  }

  /** Once there is a line after them, all the lines before are whole. */
  lemma LinesShapeAt(stream: Bytes, n: nat)
    requires n < |Lines(stream)|
    ensures forall j :: 0 <= j < n ==> IsLine(Lines(stream)[j])
  {
    forall j | 0 <= j < n ensures IsLine(Lines(stream)[j]) { LinesShape(stream, j); }
  }

  lemma WindowFront(lines: seq<Bytes>, n: nat, limit: nat)
    requires 0 < limit <= n <= |lines|
    ensures Window(lines, n, limit) == lines[n - limit] + Concat(lines[n - limit + 1..n])
  {
    assert lines[n - limit..n][1..] == lines[n - limit + 1..n];
  }

  lemma WindowNext(lines: seq<Bytes>, n: nat, limit: nat)
    requires n < |lines| && limit > 0
    ensures Window(lines, n + 1, limit) == Concat(lines[Max(0, n + 1 - limit)..n]) + lines[n]
  {
    var from := Max(0, n + 1 - limit);
    assert lines[from..n + 1] == lines[from..n] + [lines[n]];
    ConcatLast(lines[from..n], lines[n]);
  }

  /** `tail -n +start`: every line from there on, up to the first that is over the limit. */
  method From(reader: Reader, start: nat) returns (out: Bytes, ok: bool, ghost n: nat)
    requires reader.Valid()
    modifies reader
    ensures var lines := Lines(Concat(old(reader.chunks)));
      && n <= |lines| && (forall j :: 0 <= j < n ==> |lines[j]| <= MaxLine)
      && (if ok then n == |lines| else n < |lines| && |lines[n]| > MaxLine)
      && out == Since(lines, n, start)
  {
    hide Lines, Concat, LineLength, Next, Since;
    ghost var stream := Concat(reader.chunks);
    ghost var lines := Lines(stream);
    var pending := new Buffer();
    assert [][0..] + stream == stream;
    out, n := [], 0;
    var lineNo := 1;
    assert lines[0..] == lines;
    SinceNone(lines, start);
    while true
      invariant fresh(pending) && pending.Valid(reader) && n <= |lines| && Lines(pending.Ahead(reader)) == lines[n..]
      invariant forall j :: 0 <= j < n ==> |lines[j]| <= MaxLine
      invariant lineNo == n + 1 && out == Since(lines, n, start)
      decreases |lines| - n
    {
      ghost var ahead := pending.Ahead(reader);
      var next := pending.ReadLine(reader);
      NextLine(ahead, lines, n);
      if next.TooLong? { return out, false, n; }
      if next.End? { break; }
      SinceNext(lines, n, start);
      if lineNo >= start { out := out + next.line; }
      lineNo, n := lineNo + 1, n + 1;
    }
    ok := true;
  }

  /** The first `n` lines without those before line number `start`. */
  function Since(lines: seq<Bytes>, n: nat, start: nat): Bytes
    requires n <= |lines|
  {
    if n < start then [] else Concat(lines[Max(0, start - 1)..n])
  }

  lemma SinceNone(lines: seq<Bytes>, start: nat)
    ensures Since(lines, 0, start) == []
  {
  }

  lemma SinceNext(lines: seq<Bytes>, n: nat, start: nat)
    requires n < |lines|
    ensures Since(lines, n + 1, start) == if n + 1 >= start then Since(lines, n, start) + lines[n] else Since(lines, n, start)
  {
    if n + 1 >= start {
      var from := Max(0, start - 1);
      assert lines[from..n + 1] == lines[from..n] + [lines[n]];
      ConcatLast(lines[from..n], lines[n]);
    }
  }
}
