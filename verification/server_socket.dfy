/** The server's socket (SC_ServerSocket): the accept loop that admits
    clients and starts one worker per admitted client, and the worker's
    read loop that frames the byte stream and hands every frame to the
    presenter. Threads are modelled one at a time; the clock is a
    parameter. */
module ServerSocket {
  import opened Wrappers
  import opened JavaString
  import opened Wire
  import opened Framing
  import opened ClientRecord
  import opened ClientManager
  import opened ServerPresenter

  /** A connection accepted by the listening socket: the identity of its
      record and the hash code that names it. */
  datatype Incoming = Incoming(id: Id, hash: int)

  /** The accept loop after a series of connections: the state, and the
      clients for which a worker was started, in order. */
  datatype Accepted = Accepted(step: Step, workers: seq<Id>)

  predicate Fresh(s: Server, conns: seq<Incoming>) {
    && (forall i | 0 <= i < |conns| :: conns[i].id !in s.heap)
    && (forall i, j | 0 <= i < j < |conns| :: conns[i].id != conns[j].id)
  }

  /** The identities of a series of connections. */
  function Ids(conns: seq<Incoming>): set<Id>
    decreases |conns|
  {
    if |conns| == 0 then {} else Ids(conns[..|conns| - 1]) + {conns[|conns| - 1].id}
  }

  /** Every identity of `Ids(conns)` is that of one of the connections. */
  lemma {:induction false} IdsFrom(conns: seq<Incoming>, x: Id)
    requires x in Ids(conns)
    ensures exists i | 0 <= i < |conns| :: conns[i].id == x
    decreases |conns|
  {
    var n := |conns| - 1;
    if conns[n].id != x {
      var init := conns[..n];
      IdsFrom(init, x);
      var i :| 0 <= i < |init| && init[i].id == x;
      assert conns[i] == init[i];
    }
  }

  /** `ws` is the identities of some of the connections, in the order in
      which they connected. */
  predicate PickedInOrder(ws: seq<Id>, conns: seq<Incoming>)
    decreases |conns|
  {
    if |conns| == 0 then ws == []
    else
      var init := conns[..|conns| - 1];
      || PickedInOrder(ws, init)
      || (|ws| > 0 && ws[|ws| - 1] == conns[|conns| - 1].id && PickedInOrder(ws[..|ws| - 1], init))
  }

  /** Lines 99-109 of `run`, once per accepted connection: a worker is
      started exactly for the clients `register` returns. */
  function AcceptAll(cfg: Config, s: Server, sent: seq<Sent>, conns: seq<Incoming>): (r: Accepted)
    requires Valid(s) && Fresh(s, conns)
    ensures Valid(r.step.server) && r.step.server.heap.Keys == s.heap.Keys + Ids(conns)
    ensures |r.workers| <= |conns|
    ensures r.step.server.members == s.members + r.workers
    ensures forall w | w in r.workers :: w in Ids(conns)
    decreases |conns|
  {
    if |conns| == 0 then Accepted(Step(s, sent, false), [])
    else
      FreshLast(s, conns);
      var prev := AcceptAll(cfg, s, sent, conns[..|conns| - 1]);
      var c := conns[|conns| - 1];
      var a := Register(cfg, prev.step.server, prev.step.sent, c.id, c.hash);
      var workers := prev.workers + (if a.admitted.Some? then [c.id] else []);
      WorkersStep(s.members, prev.workers, a.step.server.members, c.id, a.admitted.Some?);
      Accepted(a.step, workers)
  }

  /** The registry grows by the admitted connection only. */
  lemma WorkersStep(first: seq<Id>, prev: seq<Id>, after: seq<Id>, id: Id, admitted: bool)
    requires admitted ==> after == first + prev + [id]
    requires !admitted ==> after == first + prev
    ensures after == first + (prev + (if admitted then [id] else []))
  {
  }

  /** Workers are started in the order in which the clients connected. */
  lemma {:induction false} AcceptsInOrder(cfg: Config, s: Server, sent: seq<Sent>, conns: seq<Incoming>)
    requires Valid(s) && Fresh(s, conns)
    ensures PickedInOrder(AcceptAll(cfg, s, sent, conns).workers, conns)
    decreases |conns|
  {
    if |conns| > 0 {
      FreshLast(s, conns);
      AcceptsInOrder(cfg, s, sent, conns[..|conns| - 1]);
      var prev := AcceptAll(cfg, s, sent, conns[..|conns| - 1]);
      var c := conns[|conns| - 1];
      var a := Register(cfg, prev.step.server, prev.step.sent, c.id, c.hash);
      PickedStep(prev.workers, conns, a.admitted.Some?);
    }
  }

  /** Whether or not the last connection is admitted, the workers stay in
      connection order. */
  lemma PickedStep(prev: seq<Id>, conns: seq<Incoming>, admitted: bool)
    requires |conns| > 0 && PickedInOrder(prev, conns[..|conns| - 1])
    ensures PickedInOrder(prev + (if admitted then [conns[|conns| - 1].id] else []), conns)
  {
    var ws := prev + (if admitted then [conns[|conns| - 1].id] else []);
    if admitted {
      assert ws[..|ws| - 1] == prev;
    } else {
      assert ws == prev;
    }
  }

  /** `ws` is the identities of the first `|ws|` connections, in order. */
  predicate FirstIds(ws: seq<Id>, conns: seq<Incoming>) {
    |ws| <= |conns| && forall k | 0 <= k < |ws| :: ws[k] == conns[k].id
  }

  /** Connections are admitted while there is room: starting within its
      capacity, the server starts workers for the first connections, as
      many as there are free places, or for all of them if they are fewer. */
  lemma {:induction false} AdmitsUpToCapacity(cfg: Config, s: Server, sent: seq<Sent>, conns: seq<Incoming>)
    requires Valid(s) && Fresh(s, conns) && |s.members| <= cfg.maxClients
    ensures var room := cfg.maxClients - |s.members|;
            var ws := AcceptAll(cfg, s, sent, conns).workers;
            |ws| == (if |conns| <= room then |conns| else room) && FirstIds(ws, conns)
    decreases |conns|
  {
    if |conns| > 0 {
      var n := |conns| - 1;
      FreshLast(s, conns);
      AdmitsUpToCapacity(cfg, s, sent, conns[..n]);
      var prev := AcceptAll(cfg, s, sent, conns[..n]).workers;
      AcceptLast(cfg, s, sent, conns);
      AdmitStep(prev, conns, cfg.maxClients - |s.members|, |s.members| + |prev| + 1 <= cfg.maxClients);
    } else {
      assert AcceptAll(cfg, s, sent, conns).workers == [];
    }
  }

  /** One more connection: the first free places stay filled by the first
      connections. */
  lemma AdmitStep(prev: seq<Id>, conns: seq<Incoming>, room: int, admitted: bool)
    requires |conns| > 0 && room >= 0
    requires var init := conns[..|conns| - 1];
             |prev| == (if |init| <= room then |init| else room) && FirstIds(prev, init)
    requires admitted <==> |prev| + 1 <= room
    ensures var ws := prev + (if admitted then [conns[|conns| - 1].id] else []);
            |ws| == (if |conns| <= room then |conns| else room) && FirstIds(ws, conns)
  {
    var n := |conns| - 1;
    forall k | 0 <= k < |prev| ensures prev[k] == conns[k].id {
      assert conns[..n][k] == conns[k];
    }
  }

  /** The last connection gets a worker exactly when there is a free place
      after those before it. */
  lemma AcceptLast(cfg: Config, s: Server, sent: seq<Sent>, conns: seq<Incoming>)
    requires Valid(s) && Fresh(s, conns) && |conns| > 0
    ensures var n := |conns| - 1;
            var prev := AcceptAll(cfg, s, sent, conns[..n]).workers;
            AcceptAll(cfg, s, sent, conns).workers
              == prev + (if |s.members| + |prev| + 1 <= cfg.maxClients then [conns[n].id] else [])
  {
    FreshLast(s, conns);
  }

  /** The connections before the last one are fresh too, and the last one
      is new to all of them. */
  lemma FreshLast(s: Server, conns: seq<Incoming>)
    requires Fresh(s, conns) && |conns| > 0
    ensures Fresh(s, conns[..|conns| - 1])
    ensures conns[|conns| - 1].id !in s.heap
    ensures conns[|conns| - 1].id !in Ids(conns[..|conns| - 1])
  {
    var n := |conns| - 1;
    var init := conns[..n];
    assert forall i | 0 <= i < |init| :: init[i] == conns[i];
    if conns[n].id in Ids(init) {
      IdsFrom(init, conns[n].id);
    }
  }

  /** However many clients connect, a server that starts within its
      capacity stays within it. */
  lemma {:induction false} CapacityHolds(cfg: Config, s: Server, sent: seq<Sent>, conns: seq<Incoming>)
    requires Valid(s) && Fresh(s, conns) && |s.members| <= cfg.maxClients
    ensures |AcceptAll(cfg, s, sent, conns).step.server.members| <= cfg.maxClients
    decreases |conns|
  {
    if |conns| > 0 {
      var init := conns[..|conns| - 1];
      FreshLast(s, conns);
      CapacityHolds(cfg, s, sent, init);
    }
  }


  /** The worker of one client: the shared state as its thread sees it, the
      query buffer, the frames handed to `readQuery` so far, and whether the
      loop still runs. */
  datatype Worker = Worker(step: Step, buffer: string, handled: seq<string>, running: bool)

  /** Lines 188-190: every frame of a batch goes to `readQuery`, in order,
      the `k`-th frame this worker handles being read at time `clock(k)`. */
  function Dispatch(cfg: Config, st: Step, id: Id, frames: seq<string>, clock: nat -> int, done: nat): (r: Step)
    requires Valid(st.server) && id in st.server.heap
    ensures Valid(r.server) && r.server.heap.Keys == st.server.heap.Keys
    ensures st.sent <= r.sent
    decreases |frames|
  {
    if |frames| == 0 then st
    else
      OthersGetOnlyForwards(cfg, st, id, frames[0], clock(done));
      Dispatch(cfg, ReadQuery(cfg, st, id, frames[0], clock(done)), id, frames[1..], clock, done + 1)
  }

  lemma DispatchOne(cfg: Config, st: Step, id: Id, frame: string, clock: nat -> int, done: nat)
    requires Valid(st.server) && id in st.server.heap
    ensures Dispatch(cfg, st, id, [frame], clock, done) == ReadQuery(cfg, st, id, frame, clock(done))
  {
    assert [frame][1..] == [];
  }

  /** The worker's socket is closed when its loop ends: by the
      try-with-resources when the loop condition fails, and before the
      kick when the read fails. */
  function Close(st: Step, id: Id): (r: Step)
    requires Valid(st.server) && id in st.server.heap
    ensures Valid(r.server) && id in r.server.closed
    ensures r == st.(server := st.server.(closed := st.server.closed + {id}))
  {
    st.(server := st.server.(closed := st.server.closed + {id}))
  }

  /** One read of a running worker. A failed read closes the socket and
      kicks the client with "Something went wrong". A read that leaves no
      EOT in the buffer only grows it. Otherwise the buffer is cut, the
      complete frames are dispatched, and the loop goes on only if the
      thread is not interrupted and the socket is open. */
  function Advance(cfg: Config, w: Worker, id: Id, input: Input, clock: nat -> int): (r: Worker)
    requires Valid(w.step.server) && id in w.step.server.heap
    requires input.Got? ==> WellFormed(input.read)
    ensures Valid(r.step.server) && r.step.server.heap.Keys == w.step.server.heap.Keys
    ensures w.step.sent <= r.step.sent
    ensures !r.running ==> id in r.step.server.closed
    ensures input.Broken? ==> !r.running && r.handled == w.handled
    ensures input.Broken? ==> r.step == Kick(cfg, Close(w.step, id), id, "Something went wrong")
    ensures input.Got? ==>
              var b := Feed(w.buffer, Received(input.read));
              r.buffer == b.rest && r.handled == w.handled + Frames(b)
    ensures input.Got? && EOT !in w.buffer + Received(input.read) ==>
              r.step == w.step && r.running && r.handled == w.handled
    ensures input.Got? && EOT in w.buffer + Received(input.read) ==>
              var b := Feed(w.buffer, Received(input.read));
              var d := Dispatch(cfg, w.step, id, Frames(b), clock, |w.handled|);
              && (r.running <==> !d.interrupted && id !in d.server.closed)
              && r.step == (if r.running then d else Close(d, id))
  {
    match input
    case Broken =>
      var st := Kick(cfg, Close(w.step, id), id, "Something went wrong");
      Worker(st, w.buffer, w.handled, false)
    case Got(read) =>
      var chunk := Received(read);
      var b := Feed(w.buffer, chunk);
      if EOT !in w.buffer + chunk then
        Worker(w.step, b.rest, w.handled + Frames(b), true)
      else
        var st := Dispatch(cfg, w.step, id, Frames(b), clock, |w.handled|);
        var going := !st.interrupted && id !in st.server.closed;
        Worker(if going then st else Close(st, id), b.rest, w.handled + Frames(b), going)
  }

  /** `runCommunication(client)` over a series of reads, from an empty
      buffer; once the loop has ended, further reads are not taken. */
  function Serve(cfg: Config, st: Step, id: Id, inputs: seq<Input>, clock: nat -> int): (r: Worker)
    requires Valid(st.server) && id in st.server.heap
    requires forall i | 0 <= i < |inputs| :: inputs[i].Got? ==> WellFormed(inputs[i].read)
    ensures Valid(r.step.server) && r.step.server.heap.Keys == st.server.heap.Keys
    ensures st.sent <= r.step.sent
    ensures !r.running ==> id in r.step.server.closed
    decreases |inputs|
  {
    if |inputs| == 0 then Worker(st, "", [], true)
    else
      var prev := Serve(cfg, st, id, inputs[..|inputs| - 1], clock);
      if !prev.running then prev
      else Advance(cfg, prev, id, inputs[|inputs| - 1], clock)
  }

  /** While the worker runs, it has handed `readQuery` exactly the trimmed
      frames of the framer run over everything it read, and it keeps the
      framer's buffer. */
  lemma {:induction false} WorkerFollowsFramer(cfg: Config, st: Step, id: Id, inputs: seq<Input>, clock: nat -> int)
    requires Valid(st.server) && id in st.server.heap
    requires forall i | 0 <= i < |inputs| :: inputs[i].Got? ==> WellFormed(inputs[i].read)
    ensures var w := Serve(cfg, st, id, inputs, clock);
            w.running ==> w.handled == Frames(Run(Chunks(inputs))) && w.buffer == Run(Chunks(inputs)).rest
    decreases |inputs|
  {
    if |inputs| > 0 {
      var init := inputs[..|inputs| - 1];
      WorkerFollowsFramer(cfg, st, id, init, clock);
      ChunksInit(inputs);
      var prev := Serve(cfg, st, id, init, clock);
      var w := Serve(cfg, st, id, inputs, clock);
      if w.running {
        var last := inputs[|inputs| - 1];
        assert last.Got?;
        var prevRun := Run(Chunks(init));
        var b := Feed(prevRun.rest, Received(last.read));
        assert Run(Chunks(inputs)) == Batch(prevRun.complete + b.complete, b.rest);
        FramesAppend(prevRun.complete, b.complete);
      }
    }
  }

  /** A failed read ends the worker: the socket is closed before the kick,
      so the kick frame is never delivered, the client is deregistered and
      the thread's interrupt flag ends up clear. */
  lemma BrokenReadKicks(cfg: Config, w: Worker, id: Id, clock: nat -> int)
    requires Valid(w.step.server) && id in w.step.server.heap
    ensures var r := Advance(cfg, w, id, Broken, clock);
            && !r.running && id in r.step.server.closed
            && id !in r.step.server.members
            && r.step.sent == w.step.sent
            && !r.step.interrupted
  {
  }

  /** A client that sends its farewell "/disconnect " + reason (the reason
      may be empty) in a read of its own, and does not trip the spam check
      with it, ends its worker: the flag raised by the command stops the
      loop, and the socket is closed. */
  lemma {:induction false} DisconnectEndsWorker(cfg: Config, w: Worker, id: Id, reason: string, clock: nat -> int)
    requires Valid(w.step.server) && id in w.step.server.heap && w.buffer == ""
    requires IsRegistered(w.step.server, w.step.server.heap[id].name)
    requires US !in reason && EOT !in reason
    requires !IsSpamming(cfg, w.step.server.heap[id], clock(|w.handled|)).spamming
    ensures var frame := SendFrame("/disconnect " + reason);
            var r := Advance(cfg, w, id, Got(Read(|frame|, frame)), clock);
            !r.running && id in r.step.server.closed
  {
    var m := "/disconnect " + reason;
    assert US !in m && EOT !in m;
    var frame := SendFrame(m);
    OneFrameRead(m);
    assert EOT in w.buffer + frame by {
      assert frame[|frame| - 1] == EOT;
      assert w.buffer + frame == frame;
    }
    var b := Feed(w.buffer, frame);
    assert Frames(b) == [Trim(SendBody(m))];
    DispatchOne(cfg, w.step, id, Trim(SendBody(m)), clock, |w.handled|);
    DisconnectQuery(cfg, w.step, id, reason, clock(|w.handled|));
  }

  /** A "/disconnect" that trips the spam check does not end the worker:
      the kick's pause consumes the interrupt flag and skips the close, so
      the loop condition still holds. */
  lemma {:induction false} SpammedDisconnectKeepsWorker(cfg: Config, w: Worker, id: Id, reason: string, clock: nat -> int)
    requires Valid(w.step.server) && id in w.step.server.heap && w.buffer == ""
    requires id !in w.step.server.closed
    requires IsRegistered(w.step.server, w.step.server.heap[id].name)
    requires US !in reason && EOT !in reason
    requires IsSpamming(cfg, w.step.server.heap[id], clock(|w.handled|)).spamming
    ensures var frame := SendFrame("/disconnect " + reason);
            var r := Advance(cfg, w, id, Got(Read(|frame|, frame)), clock);
            r.running && id !in r.step.server.closed
  {
    var m := "/disconnect " + reason;
    assert US !in m && EOT !in m;
    var frame := SendFrame(m);
    OneFrameRead(m);
    assert EOT in w.buffer + frame by {
      assert frame[|frame| - 1] == EOT;
      assert w.buffer + frame == frame;
    }
    var b := Feed(w.buffer, frame);
    assert Frames(b) == [Trim(SendBody(m))];
    DispatchOne(cfg, w.step, id, Trim(SendBody(m)), clock, |w.handled|);
    DisconnectQuery(cfg, w.step, id, reason, clock(|w.handled|));
  }
}
