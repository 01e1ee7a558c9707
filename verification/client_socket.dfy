/** The client's socket (SC_ClientSocket): the reading thread frames the
    server's byte stream and hands every frame to the presenter until its
    interrupt flag is raised or a read fails; it closes the socket when it
    ends either way. */
module ClientSocket {
  import opened Wrappers
  import opened JavaString
  import opened Wire
  import opened Framing
  import opened ClientPresenter

  /** The reading thread: the session, the query buffer, the frames handed
      to `readQuery` so far, and whether the loop still runs. */
  datatype Listener = Listener(session: Session, buffer: string, handled: seq<string>, running: bool)

  /** What `readQuery` made of each frame of a batch. */
  function Interpret(frames: seq<string>): (r: seq<Inbound>)
    ensures |r| == |frames|
    decreases |frames|
  {
    if |frames| == 0 then [] else [ReadQuery(frames[0])] + Interpret(frames[1..])
  }

  lemma {:induction false} InterpretAt(frames: seq<string>, i: nat)
    requires i < |frames|
    ensures Interpret(frames)[i] == ReadQuery(frames[i])
    decreases i
  {
    if i > 0 {
      InterpretAt(frames[1..], i - 1);
    }
  }

  /** Some frame of the batch is a kick. */
  predicate AnyKick(ins: seq<Inbound>) {
    exists i | 0 <= i < |ins| :: ins[i].kicked
  }

  lemma AnyKickFirst(ins: seq<Inbound>)
    requires |ins| > 0
    ensures AnyKick(ins) <==> ins[0].kicked || AnyKick(ins[1..])
  {
    if AnyKick(ins) && !ins[0].kicked {
      var i :| 0 <= i < |ins| && ins[i].kicked;
      assert ins[1..][i - 1] == ins[i];
    }
    if AnyKick(ins[1..]) {
      var i :| 0 <= i < |ins[1..]| && ins[1..][i].kicked;
      assert ins[i + 1] == ins[1..][i];
    }
  }

  /** The messages one frame shows: its own, unless it was illegal. */
  function ShownOf(inbound: Inbound): seq<Shown> {
    if inbound.shown.Some? then [inbound.shown.value] else []
  }

  /** The session after `readQuery` of one frame: its message is shown, and
      a kick raises both flags. */
  function Take(st: Session, inbound: Inbound): (r: Session)
    ensures r.sent == st.sent && r.closed == st.closed
    ensures r.shown == st.shown + ShownOf(inbound)
    ensures r.inputStopped == (st.inputStopped || inbound.kicked)
    ensures r.outputStopped == (st.outputStopped || inbound.kicked)
  {
    st.(shown := st.shown + ShownOf(inbound),
        inputStopped := st.inputStopped || inbound.kicked,
        outputStopped := st.outputStopped || inbound.kicked)
  }

  /** Lines 130-132: every frame of a batch goes to `readQuery`, in order;
      a kick raises both threads' flags, and the rest of the batch is still
      read. */
  function Deliver(st: Session, ins: seq<Inbound>): (r: Session)
    ensures r.sent == st.sent && r.closed == st.closed
    ensures |st.shown| <= |r.shown| && r.shown[..|st.shown|] == st.shown
    ensures st.inputStopped ==> r.inputStopped
    ensures AnyKick(ins) ==> r.inputStopped && r.outputStopped
    ensures !AnyKick(ins) ==> r.inputStopped == st.inputStopped && r.outputStopped == st.outputStopped
    decreases |ins|
  {
    if |ins| == 0 then st
    else
      var next := Take(st, ins[0]);
      var r := Deliver(next, ins[1..]);
      assert r.shown[..|st.shown|] == st.shown by {
        assert r.shown[..|next.shown|] == next.shown;
        assert next.shown[..|st.shown|] == st.shown;
      }
      AnyKickFirst(ins);
      r
  }

  /** The messages a batch shows: one per legal frame, in order. */
  function ShownBy(ins: seq<Inbound>): seq<Shown>
    decreases |ins|
  {
    if |ins| == 0 then [] else ShownOf(ins[0]) + ShownBy(ins[1..])
  }

  /** A batch shows exactly the messages of its legal frames, in order,
      whether or not one of them is a kick. */
  lemma {:induction false} DeliverShows(st: Session, ins: seq<Inbound>)
    ensures Deliver(st, ins).shown == st.shown + ShownBy(ins)
    decreases |ins|
  {
    if |ins| > 0 {
      var next := Take(st, ins[0]);
      DeliverShows(next, ins[1..]);
      assert Deliver(st, ins) == Deliver(next, ins[1..]);
      assert ShownBy(ins) == ShownOf(ins[0]) + ShownBy(ins[1..]);
      assert st.shown + (ShownOf(ins[0]) + ShownBy(ins[1..])) == next.shown + ShownBy(ins[1..]);
    }
  }

  /** One read of a running listener. A failed read ends the loop (the
      presenter's `kick()` does nothing) and `shutdown()` closes the socket.
      A read that leaves no EOT in the buffer only grows it. Otherwise the
      complete frames are delivered, and the loop goes on only if the
      reading thread's flag is still clear; when it ends, the socket is
      closed. */
  function Advance(l: Listener, input: Input): (r: Listener)
    requires input.Got? ==> WellFormed(input.read)
    ensures !r.running ==> r.session.closed
    ensures input.Broken? ==> !r.running && r.session == l.session.(closed := true)
    ensures input.Got? ==>
              var b := Feed(l.buffer, Received(input.read));
              r.buffer == b.rest && r.handled == l.handled + Frames(b)
    ensures input.Got? && EOT !in l.buffer + Received(input.read) ==>
              r.session == l.session && r.running && r.handled == l.handled
    ensures input.Got? && EOT in l.buffer + Received(input.read) ==>
              var b := Feed(l.buffer, Received(input.read));
              var st := Deliver(l.session, Interpret(Frames(b)));
              && (r.running <==> !st.inputStopped)
              && r.session == (if st.inputStopped then st.(closed := true) else st)
              && r.session.shown == l.session.shown + ShownBy(Interpret(Frames(b)))
              && r.session.sent == l.session.sent
  {
    match input
    case Broken =>
      Listener(l.session.(closed := true), l.buffer, l.handled, false)
    case Got(read) =>
      var chunk := Received(read);
      var b := Feed(l.buffer, chunk);
      if EOT !in l.buffer + chunk then
        Listener(l.session, b.rest, l.handled + Frames(b), true)
      else
        DeliverShows(l.session, Interpret(Frames(b)));
        var st := Deliver(l.session, Interpret(Frames(b)));
        if st.inputStopped then Listener(st.(closed := true), b.rest, l.handled + Frames(b), false)
        else Listener(st, b.rest, l.handled + Frames(b), true)
  }

  /** `run()` over a series of reads, from an open socket, an empty buffer
      and a clear flag; once the loop has ended, further reads are not
      taken. */
  function Listen(st: Session, inputs: seq<Input>): (r: Listener)
    requires !st.closed && !st.inputStopped
    requires forall i | 0 <= i < |inputs| :: inputs[i].Got? ==> WellFormed(inputs[i].read)
    ensures r.session.closed <==> !r.running
    ensures r.session.sent == st.sent
    decreases |inputs|
  {
    if |inputs| == 0 then Listener(st, "", [], true)
    else
      var prev := Listen(st, inputs[..|inputs| - 1]);
      if !prev.running then prev
      else Advance(prev, inputs[|inputs| - 1])
  }

  /** While the listener runs, it has handed `readQuery` exactly the
      trimmed frames of the framer run over everything it read. */
  lemma {:induction false} ListenerFollowsFramer(st: Session, inputs: seq<Input>)
    requires !st.closed && !st.inputStopped
    requires forall i | 0 <= i < |inputs| :: inputs[i].Got? ==> WellFormed(inputs[i].read)
    ensures var l := Listen(st, inputs);
            l.running ==> l.handled == Frames(Run(Chunks(inputs))) && l.buffer == Run(Chunks(inputs)).rest
    decreases |inputs|
  {
    if |inputs| > 0 {
      var init := inputs[..|inputs| - 1];
      var last := inputs[|inputs| - 1];
      var l := Listen(st, inputs);
      if l.running {
        var prev := Listen(st, init);
        assert prev.running && l == Advance(prev, last);
        assert last.Got?;
        ListenerFollowsFramer(st, init);
        var prevRun := Run(Chunks(init));
        var b := Feed(prevRun.rest, Received(last.read));
        ChunksInit(inputs);
        assert Run(Chunks(inputs)) == Batch(prevRun.complete + b.complete, b.rest);
        FramesAppend(prevRun.complete, b.complete);
      }
    }
  }

  /** A read that completes a kick frame ends the listener and closes the
      socket, after the whole batch has been shown. */
  lemma {:induction false} KickEndsListener(l: Listener, read: Read, i: nat)
    requires WellFormed(read)
    requires var b := Feed(l.buffer, Received(read));
             EOT in l.buffer + Received(read) && i < |Frames(b)| && ReadQuery(Frames(b)[i]).kicked
    ensures var r := Advance(l, Got(read));
            var b := Feed(l.buffer, Received(read));
            && !r.running && r.session.closed && r.session.outputStopped
            && r.session.shown == l.session.shown + ShownBy(Interpret(Frames(b)))
  {
    var b := Feed(l.buffer, Received(read));
    var ins := Interpret(Frames(b));
    InterpretAt(Frames(b), i);
    assert AnyKick(ins);
    DeliverShows(l.session, ins);
  }

  /** A server frame carrying a plain message, read on its own by a running
      listener, is shown under its sender label, and the listener goes on. */
  lemma {:induction false} MessageArrives(l: Listener, sender: string, m: string)
    requires l.buffer == "" && !l.session.inputStopped
    requires US !in sender && EOT !in sender
    requires |m| > 0 && US !in m && EOT !in m && !IsTrimmable(m[|m| - 1]) && !IsCommand(m)
    ensures var frame := RecvFrame(sender, m);
            var r := Advance(l, Got(Read(|frame|, frame)));
            r.running && r.session.shown == l.session.shown + [Shown(sender, m)]
  {
    var frame := RecvFrame(sender, m);
    OneRecvFrameRead(sender, m);
    assert EOT in l.buffer + frame by {
      assert frame[|frame| - 1] == EOT;
      assert l.buffer + frame == frame;
    }
    MessageShown(sender, m);
    var ins := Interpret([Trim(RecvBody(sender, m))]);
    assert ins == [Inbound(Some(Shown(sender, m)), false)];
    DeliverShows(l.session, ins);
    assert ShownBy(ins) == [Shown(sender, m)];
  }
}
