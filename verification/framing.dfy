/** The framer step of both read loops (server worker and client reader):
    reads are appended to a query buffer until it holds an EOT; the buffer
    is then split on EOT, every closed segment is dispatched after `trim()`,
    and the unterminated tail is kept for the next read. The two loops
    contain the same code, modelled once here. */
module Framing {
  import opened JavaString
  import opened Wire

  /** What one `reader.read(buffer, 0, len)` returned: the count (-1 at end
      of stream) and the character array it filled. */
  datatype Read = Read(count: int, chars: seq<char>)

  /** The reader never reports more characters than the array holds. */
  predicate WellFormed(r: Read) {
    r.count <= |r.chars|
  }

  /** The text a read adds to the query buffer: `String.valueOf(buffer, 0,
      bytes)` when the count is positive, nothing for 0 or -1. */
  function Received(r: Read): (s: string)
    requires WellFormed(r)
    ensures s <= r.chars
    ensures |s| > 0 <==> r.count > 0
    ensures r.count > 0 ==> |s| == r.count
  {
    if r.count > 0 then r.chars[..r.count] else ""
  }

  /** What one read of a read loop yields: characters (or end of stream),
      or an I/O failure. */
  datatype Input = Got(read: Read) | Broken

  /** The characters a series of reads delivered. */
  function Chunks(inputs: seq<Input>): (r: seq<string>)
    requires forall i | 0 <= i < |inputs| :: inputs[i].Got? ==> WellFormed(inputs[i].read)
    ensures |r| == |inputs|
  {
    seq(|inputs|, i requires 0 <= i < |inputs| =>
      if inputs[i].Got? then Received(inputs[i].read) else "")
  }

  lemma ChunksInit(inputs: seq<Input>)
    requires |inputs| > 0
    requires forall i | 0 <= i < |inputs| :: inputs[i].Got? ==> WellFormed(inputs[i].read)
    ensures Chunks(inputs)[..|inputs| - 1] == Chunks(inputs[..|inputs| - 1])
  {
    var init := inputs[..|inputs| - 1];
    assert forall i | 0 <= i < |init| :: init[i] == inputs[i];
  }

  /** The segments a step hands on (untrimmed) and the buffer it keeps. */
  datatype Batch = Batch(complete: seq<string>, rest: string)

  /** No string of `xs` is empty. */
  predicate NoneEmpty(xs: seq<string>) {
    forall i | 0 <= i < |xs| :: xs[i] != ""
  }

  lemma NoneEmptySplit(a: seq<string>, b: seq<string>)
    requires NoneEmpty(a + b)
    ensures NoneEmpty(a) && NoneEmpty(b)
  {
    assert forall i | 0 <= i < |a| :: a[i] == (a + b)[i];
    assert forall i | 0 <= i < |b| :: b[i] == (a + b)[|a| + i];
  }

  /** The strings of `xs` that are not empty, in order. */
  function NonEmpty(xs: seq<string>): (r: seq<string>)
    ensures |r| <= |xs|
    ensures NoneEmpty(r)
  {
    if |xs| == 0 then []
    else (if xs[0] == "" then [] else [xs[0]]) + NonEmpty(xs[1..])
  }

  lemma {:induction false} NonEmptyAppend(a: seq<string>, b: seq<string>)
    ensures NonEmpty(a + b) == NonEmpty(a) + NonEmpty(b)
    decreases |a|
  {
    if |a| == 0 {
      assert a + b == b;
    } else {
      assert (a + b)[1..] == a[1..] + b;
      NonEmptyAppend(a[1..], b);
    }
  }

  lemma {:induction false} NonEmptyAll(xs: seq<string>)
    requires NoneEmpty(xs)
    ensures NonEmpty(xs) == xs
    decreases |xs|
  {
    if |xs| > 0 {
      NonEmptyAll(xs[1..]);
    }
  }

  /** Removing trailing empty strings does not change the non-empty ones. */
  lemma {:induction false} NonEmptyDropTrailing(xs: seq<string>)
    ensures NonEmpty(DropTrailingEmpty(xs)) == NonEmpty(xs)
    decreases |xs|
  {
    if |xs| > 0 && xs[|xs| - 1] == "" {
      var init := xs[..|xs| - 1];
      assert xs == init + [""];
      NonEmptyDropTrailing(init);
      NonEmptyAppend(init, [""]);
      assert NonEmpty([""]) == [];
    }
  }

  /** Lines 173-182 of both loops, for a buffer that holds an EOT:
      `split(EOT)` and the retention of an unterminated last segment. The
      kept buffer is the text after the last EOT; the handed-on segments are
      the closed ones, except that `split` drops empty segments at the end. */
  function Cut(buffer: string): (b: Batch)
    requires EOT in buffer
    ensures b.rest == Open(buffer, EOT) && EOT !in b.rest
    ensures NonEmpty(b.complete) == NonEmpty(Closed(buffer, EOT))
    ensures NoneEmpty(Closed(buffer, EOT)) ==> b.complete == Closed(buffer, EOT)
  {
    var queries := SplitAll(buffer, EOT);
    OpenEmptyIff(buffer, EOT);
    var p := Pieces(buffer, EOT);
    assert p == Closed(buffer, EOT) + [Open(buffer, EOT)];
    if buffer[|buffer| - 1] != EOT then
      assert queries == p;
      Batch(queries[..|queries| - 1], queries[|queries| - 1])
    else
      assert DropTrailingEmpty(p) == DropTrailingEmpty(Closed(buffer, EOT));
      NonEmptyDropTrailing(Closed(buffer, EOT));
      Batch(queries, "")
  }

  /** One read appended to the buffer (lines 164-170), followed by the cut
      when the buffer now holds an EOT. Without an EOT nothing is handed on
      and the loop reads again. */
  function Feed(buffer: string, chunk: string): (b: Batch)
    ensures b.rest == Open(buffer + chunk, EOT) && EOT !in b.rest
    ensures NonEmpty(b.complete) == NonEmpty(Closed(buffer + chunk, EOT))
    ensures NoneEmpty(Closed(buffer + chunk, EOT)) ==> b.complete == Closed(buffer + chunk, EOT)
    ensures EOT !in buffer + chunk ==> b == Batch([], buffer + chunk)
  {
    var s := buffer + chunk;
    if EOT in s then Cut(s) else Batch([], s)
  }

  /** The frames handed to `readQuery`: each segment passed through `trim()`. */
  function Frames(b: Batch): (r: seq<string>)
    ensures |r| == |b.complete|
    ensures forall i | 0 <= i < |r| :: r[i] == Trim(b.complete[i])
  {
    seq(|b.complete|, i requires 0 <= i < |b.complete| => Trim(b.complete[i]))
  }

  /** Trimming distributes over the concatenation of segment lists. */
  lemma FramesAppend(a: seq<string>, b: seq<string>)
    ensures Frames(Batch(a + b, "")) == Frames(Batch(a, "")) + Frames(Batch(b, ""))
  {
  }

  /** Everything the reads delivered, in order. */
  function Stream(chunks: seq<string>): string
    decreases |chunks|
  {
    if |chunks| == 0 then "" else Stream(chunks[..|chunks| - 1]) + chunks[|chunks| - 1]
  }

  /** The read loop run over a sequence of chunks, starting from an empty
      buffer: all segments it handed on, and the buffer it ends with. */
  function Run(chunks: seq<string>): Batch
    decreases |chunks|
  {
    if |chunks| == 0 then Batch([], "")
    else
      var prev := Run(chunks[..|chunks| - 1]);
      var step := Feed(prev.rest, chunks[|chunks| - 1]);
      Batch(prev.complete + step.complete, step.rest)
  }

  /** Chunk boundaries do not matter: however the stream is cut into reads,
      the loop keeps exactly the text after the last EOT, and hands on the
      non-empty EOT-terminated segments of the whole stream in order. */
  lemma {:induction false} RunMatchesStream(chunks: seq<string>)
    ensures Run(chunks).rest == Open(Stream(chunks), EOT)
    ensures NonEmpty(Run(chunks).complete) == NonEmpty(Closed(Stream(chunks), EOT))
    decreases |chunks|
  {
    if |chunks| > 0 {
      var init := chunks[..|chunks| - 1];
      var c := chunks[|chunks| - 1];
      var prev := Run(init);
      var s := Stream(init);
      RunMatchesStream(init);
      PiecesAppend(s, c, EOT);
      ClosedAppend(s, c);
      NonEmptyAppend(prev.complete, Feed(prev.rest, c).complete);
      NonEmptyAppend(Closed(s, EOT), Closed(Open(s, EOT) + c, EOT));
    }
  }

  /** The closed pieces of `s + c`: those of `s`, then those of its open
      tail followed by `c`; the open tail of `s + c` is that of the latter. */
  lemma ClosedAppend(s: string, c: string)
    ensures Closed(s + c, EOT) == Closed(s, EOT) + Closed(Open(s, EOT) + c, EOT)
    ensures Open(s + c, EOT) == Open(Open(s, EOT) + c, EOT)
  {
    PiecesAppend(s, c, EOT);
    var q := Pieces(Open(s, EOT) + c, EOT);
    assert Pieces(s + c, EOT) == Closed(s, EOT) + q;
    assert (Closed(s, EOT) + q)[..|Closed(s, EOT) + q| - 1] == Closed(s, EOT) + q[..|q| - 1];
  }

  /** When no frame in the stream is empty, the loop hands on exactly the
      closed segments of the whole stream, each once, in order. */
  lemma {:induction false} RunExact(chunks: seq<string>)
    requires NoneEmpty(Closed(Stream(chunks), EOT))
    ensures Run(chunks).complete == Closed(Stream(chunks), EOT)
    ensures Run(chunks).rest == Open(Stream(chunks), EOT)
    decreases |chunks|
  {
    RunMatchesStream(chunks);
    if |chunks| > 0 {
      var init := chunks[..|chunks| - 1];
      var c := chunks[|chunks| - 1];
      var s := Stream(init);
      ClosedAppend(s, c);
      NoneEmptySplit(Closed(s, EOT), Closed(Open(s, EOT) + c, EOT));
      RunMatchesStream(init);
      RunExact(init);
    }
  }

  /** Several client frames arriving in one read are all handed on by that
      read, in order, each trimmed back to its fields. */
  lemma {:induction false} SendFramesInOneRead(ms: seq<string>)
    requires forall i | 0 <= i < |ms| :: |ms[i]| > 0 && US !in ms[i] && EOT !in ms[i]
    ensures Closed(SendStream(ms), EOT) == SendBodies(ms)
    ensures Open(SendStream(ms), EOT) == ""
    decreases |ms|
  {
    if |ms| > 0 {
      var init := ms[..|ms| - 1];
      var m := ms[|ms| - 1];
      SendFramesInOneRead(init);
      ClosedAppend(SendStream(init), SendFrame(m));
      SendFrameCut(m);
      assert "" + SendFrame(m) == SendFrame(m);
      SendBodiesLast(ms);
    }
  }

  /** A client frame on its own is one closed segment, its body. */
  lemma SendFrameCut(m: string)
    requires EOT !in m
    ensures Closed(SendFrame(m), EOT) == [SendBody(m)]
    ensures Open(SendFrame(m), EOT) == ""
  {
    SendCloses(m);
  }

  lemma SendBodiesLast(ms: seq<string>)
    requires |ms| > 0
    ensures SendBodies(ms) == SendBodies(ms[..|ms| - 1]) + [SendBody(ms[|ms| - 1])]
  {
  }

  /** The text of a sequence of client frames sent back to back. */
  function SendStream(ms: seq<string>): string
    decreases |ms|
  {
    if |ms| == 0 then "" else SendStream(ms[..|ms| - 1]) + SendFrame(ms[|ms| - 1])
  }

  function SendBodies(ms: seq<string>): (r: seq<string>)
    ensures |r| == |ms|
    ensures forall i | 0 <= i < |ms| :: r[i] == SendBody(ms[i])
  {
    seq(|ms|, i requires 0 <= i < |ms| => SendBody(ms[i]))
  }

  /** End to end: client frames cut into reads at arbitrary boundaries are
      handed to `readQuery` exactly once each, in order, as their trimmed
      bodies, and nothing is left in the buffer. */
  lemma FramesSurviveAnyChunking(ms: seq<string>, chunks: seq<string>)
    requires forall i | 0 <= i < |ms| :: |ms[i]| > 0 && US !in ms[i] && EOT !in ms[i]
    requires Stream(chunks) == SendStream(ms)
    ensures Run(chunks).complete == SendBodies(ms)
    ensures Frames(Run(chunks)) == seq(|ms|, i requires 0 <= i < |ms| => Trim(SendBody(ms[i])))
    ensures Run(chunks).rest == ""
  {
    SendFramesInOneRead(ms);
    RunExact(chunks);
  }

  /** A read holding exactly one client frame, on an empty buffer, hands on
      that frame alone, trimmed. */
  lemma OneFrameRead(m: string)
    requires EOT !in m
    ensures Received(Read(|SendFrame(m)|, SendFrame(m))) == SendFrame(m)
    ensures Frames(Feed("", SendFrame(m))) == [Trim(SendBody(m))]
    ensures Feed("", SendFrame(m)).rest == ""
  {
    assert EOT !in SendBody(m);
    OneBodyCut(SendBody(m));
  }

  /** The same for a server frame arriving at the client. */
  lemma OneRecvFrameRead(sender: string, m: string)
    requires EOT !in sender && EOT !in m
    ensures Received(Read(|RecvFrame(sender, m)|, RecvFrame(sender, m))) == RecvFrame(sender, m)
    ensures Frames(Feed("", RecvFrame(sender, m))) == [Trim(RecvBody(sender, m))]
    ensures Feed("", RecvFrame(sender, m)).rest == ""
  {
    assert EOT !in RecvBody(sender, m);
    OneBodyCut(RecvBody(sender, m));
  }

  /** A lone frame on an empty buffer is cut at its EOT. */
  lemma OneBodyCut(body: string)
    requires |body| > 0 && EOT !in body
    ensures Feed("", body + [EOT]).complete == [body]
    ensures Feed("", body + [EOT]).rest == ""
  {
    var frame := body + [EOT];
    FrameCloses(body);
    assert Closed(frame, EOT) == [body] && Open(frame, EOT) == "";
    assert "" + frame == frame;
  }
}
