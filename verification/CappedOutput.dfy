/** Captured output under a cap: src/sandbox/mod.rs. */
module CappedOutput {
  import opened Base

  type Bytes = seq<byte>

  /** "\n[tinysandbox: output truncated]\n" */
  const Marker: Bytes := [
    10, 91, 116, 105, 110, 121, 115, 97, 110, 100, 98, 111, 120, 58, 32, 111, 117, 116, 112, 117, 116, 32,
    116, 114, 117, 110, 99, 97, 116, 101, 100, 93, 10]

  function Last(s: Bytes, n: nat): Bytes { if |s| <= n then s else s[|s| - n..] }

  function HeadLen(cap: nat): nat
    requires cap > |Marker|
  {
    (cap - |Marker|) / 2
  }

  function TailLen(cap: nat): nat
    requires cap > |Marker|
  {
    cap - |Marker| - HeadLen(cap)
  }

  /** What is kept of a whole stream, and whether something is missing. */
  function Capture(cap: nat, stream: Bytes): (Bytes, bool) {
    if |stream| <= cap then (stream, false)
    else if cap <= |Marker| then (Marker, true)
    else (stream[..HeadLen(cap)] + Marker + Last(stream, TailLen(cap)), true)
  }

  /** A truncated capture fills its cap exactly, if the cap has room for more than the marker;
      its ends are the ends of the stream, and they do not overlap there. */
  lemma CaptureFills(cap: nat, stream: Bytes)
    requires |stream| > cap > |Marker|
    ensures var out := Capture(cap, stream).0;
      && |out| == cap && 0 <= TailLen(cap) - HeadLen(cap) <= 1
      && HeadLen(cap) + TailLen(cap) < |stream|
      && out[..HeadLen(cap)] == stream[..HeadLen(cap)]
      && out[HeadLen(cap)..cap - TailLen(cap)] == Marker
      && out[cap - TailLen(cap)..] == stream[|stream| - TailLen(cap)..]
  {
  }

  /** What is captured says whether it was cut: it is the stream itself, or what has the marker in it. */
  lemma CaptureTells(cap: nat, stream: Bytes)
    ensures Capture(cap, stream).1 <==> |stream| > cap
    ensures |stream| <= cap ==> Capture(cap, stream).0 == stream
    ensures |stream| > cap && cap <= |Marker| ==> Capture(cap, stream).0 == Marker
  {
  }

  /** The cap itself is kept exactly if nothing is cut or the marker fits in it. */
  lemma CaptureWithinCap(cap: nat, stream: Bytes)
    ensures |Capture(cap, stream).0| <= cap <==> |stream| <= cap || |Marker| <= cap
  {
    if |stream| > cap > |Marker| { CaptureFills(cap, stream); }
  }

  /** With a cap of ten bytes, eleven bytes of output are reported as thirty-three. */
  lemma SmallCapOverflows()
    ensures |Capture(10, seq(11, _ => 0)).0| == 33
  {
    CaptureWithinCap(10, seq(11, _ => 0));
  }

  lemma LastOfLast(s: Bytes, t: Bytes, n: nat)
    ensures Last(Last(s, n) + t, n) == Last(s + t, n)
  {
  }

  class Output {
    const cap: nat
    var total: nat
    var preTruncation: Bytes
    var head: Bytes
    var tail: Bytes
    var truncated: bool
    /** Everything written so far. */
    ghost var stream: Bytes

    ghost predicate Valid()
      reads this
    {
      && total == |stream|
      && truncated == (|stream| > cap)
      && (!truncated ==> preTruncation == stream && head == [] && tail == [])
      && (truncated && cap > |Marker| ==> head == stream[..HeadLen(cap)] && tail == Last(stream[HeadLen(cap)..], TailLen(cap)))
    }

    constructor (cap: nat)
      ensures Valid() && this.cap == cap && stream == []
    {
      this.cap, total, preTruncation, head, tail, truncated, stream := cap, 0, [], [], [], false, [];
    }

    method Push(data: Bytes, limit: nat)
      requires |tail| <= limit
      modifies this`tail
      ensures tail == Last(old(tail) + data, limit)
    {
      if limit == 0 { return; }
      if |data| >= limit {
        tail := data[|data| - limit..];
        return;
      }
      var overflow := if |tail| + |data| > limit then |tail| + |data| - limit else 0;
      tail := tail[overflow..] + data;
    }

    /** The chunk that does not fit any more: what was kept is divided into head and tail. */
    method Truncate()
      requires Valid() && !truncated && |stream| == cap
      modifies this`truncated, this`head, this`tail, this`preTruncation
      ensures truncated && preTruncation == []
      ensures cap > |Marker| ==> head == stream[..HeadLen(cap)] && tail == Last(stream[HeadLen(cap)..], TailLen(cap))
    {
      truncated := true;
      if cap > |Marker| {
        var n := HeadLen(cap);
        head := preTruncation[..n];
        Push(preTruncation[n..], TailLen(cap));
        assert [] + stream[n..] == stream[n..];
      }
      preTruncation := [];
    }

    method Write(data: Bytes)
      requires Valid()
      modifies this
      ensures Valid() && stream == old(stream) + data
    {
      if data == [] {
        assert stream + data == stream;
        return;
      }
      var rest := data;
      if !truncated {
        var remaining := cap - total;
        if |data| <= remaining {
          preTruncation, total, stream := preTruncation + data, total + |data|, stream + data;
          return;
        }
        preTruncation, total, stream := preTruncation + data[..remaining], cap, stream + data[..remaining];
        rest := data[remaining..];
        Truncate();
        assert old(stream) + data[..remaining] + rest == old(stream) + data;
      }
      Extend(rest);
    }

    /** Once truncated, only the tail moves. */
    method Extend(data: Bytes)
      requires truncated && total == |stream| && |stream| >= cap && |stream| + |data| > cap
      requires cap > |Marker| ==> head == stream[..HeadLen(cap)] && tail == Last(stream[HeadLen(cap)..], TailLen(cap))
      modifies this`total, this`stream, this`tail
      ensures Valid() && stream == old(stream) + data
    {
      ghost var before := stream;
      total, stream := total + |data|, stream + data;
      if cap > |Marker| {
        var n := HeadLen(cap);
        Push(data, TailLen(cap));
        assert before[n..] + data == stream[n..];
        LastOfLast(before[n..], data, TailLen(cap));
        assert stream[..n] == before[..n];
      }
    }

    /** The capture depends on the bytes written, not on how they were cut into writes. */
    method Finish() returns (out: Bytes, cut: bool)
      requires Valid()
      ensures (out, cut) == Capture(cap, stream)
    {
      if !truncated { return preTruncation, false; }
      if cap <= |Marker| { return Marker, true; }
      out, cut := head + Marker + tail, true;
      assert Last(stream[HeadLen(cap)..], TailLen(cap)) == Last(stream, TailLen(cap));
    }
  }

  function Concat(chunks: seq<Bytes>): Bytes {
    if chunks == [] then [] else Concat(chunks[..|chunks| - 1]) + chunks[|chunks| - 1]
  }

  /** Any sequence of writes. */
  method CaptureChunks(cap: nat, chunks: seq<Bytes>) returns (out: Bytes, cut: bool)
    ensures (out, cut) == Capture(cap, Concat(chunks))
  {
    var output := new Output(cap);
    for i := 0 to |chunks|
      invariant output.Valid() && output.cap == cap && fresh(output) && output.stream == Concat(chunks[..i])
    {
      assert chunks[..i + 1][..i] == chunks[..i];
      output.Write(chunks[i]);
    }
    assert chunks[..|chunks|] == chunks;
    out, cut := output.Finish();
  }
}
